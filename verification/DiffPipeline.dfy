/** The diff engine (packages/diff_engine/engine.py), from the two section lists to the change list. */
module DiffPipeline {
  import opened GreedyPairs
  import opened Increasing
  import opened Matching
  import opened Materiality
  import opened ObligationDiff
  import opened SemanticDiff
  import opened Sorting
  import opened StructuralDiff

  type ObligationMap = map<nat, seq<ObligationFields>>

  function Lookup(m: ObligationMap, number: nat): seq<ObligationFields> {
    if number in m then m[number] else []
  }

  /** What the engine is run on. */
  datatype Job = Job(s: Settings, sim: Similarity, tau: real, os: seq<ObligationDiff.Section>,
                     ns: seq<ObligationDiff.Section>, oldObls: ObligationMap, newObls: ObligationMap)

  function Structural(j: Job): seq<Edge> {
    Aligned(j.s.Alphabet(), j.os, j.ns, |j.os|)
  }

  function LeftOld(j: Job): (r: seq<nat>)
    ensures forall k :: 0 <= k < |r| ==> r[k] < |j.os|
  {
    Others(|j.os|, Lefts(Structural(j)))
  }

  function LeftNew(j: Job): (r: seq<nat>)
    ensures forall k :: 0 <= k < |r| ==> r[k] < |j.ns|
  {
    Others(|j.ns|, Rights(Structural(j)))
  }

  function TitlesAt(ss: seq<ObligationDiff.Section>, js: seq<nat>): (r: seq<string>)
    requires forall k :: 0 <= k < |js| ==> js[k] < |ss|
    ensures |r| == |js| && forall k :: 0 <= k < |js| ==> r[k] == ss[js[k]].title
  {
    seq(|js|, k requires 0 <= k < |js| => ss[js[k]].title)
  }

  /** `a` is what the matcher may return on the sections left over by the alignment. */
  ghost predicate Residual(j: Job, a: Assignment) {
    Assigned(TitlesAt(j.os, LeftOld(j)), TitlesAt(j.ns, LeftNew(j)), j.sim, j.tau, a)
  }

  /** Its indices point into the leftovers. */
  ghost predicate Fits(j: Job, a: Assignment) {
    && (forall k :: 0 <= k < |a.pairs| ==>
          a.pairs[k].edge.left < |LeftOld(j)| && a.pairs[k].edge.right < |LeftNew(j)|)
    && (forall k :: 0 <= k < |a.unmatchedOld| ==> a.unmatchedOld[k] < |LeftOld(j)|)
    && (forall k :: 0 <= k < |a.unmatchedNew| ==> a.unmatchedNew[k] < |LeftNew(j)|)
  }

  function Remap(lo: seq<nat>, ln: seq<nat>, p: Pair): Pair
    requires p.edge.left < |lo| && p.edge.right < |ln|
  {
    Pair(Edge(lo[p.edge.left], ln[p.edge.right]), p.similarity)
  }

  /** All matched pairs: aligned ones first, then those of the matcher in document indices. */
  function MatchedPairs(j: Job, a: Assignment): (r: seq<Pair>)
    requires Fits(j, a)
    ensures |r| == |Structural(j)| + |a.pairs|
  {
    seq(|Structural(j)|, k requires 0 <= k < |Structural(j)| => Pair(Structural(j)[k], 1.0))
    + seq(|a.pairs|, k requires 0 <= k < |a.pairs| => Remap(LeftOld(j), LeftNew(j), a.pairs[k]))
  }

  function CreatedIndices(j: Job, a: Assignment): (r: seq<nat>)
    requires Fits(j, a)
    ensures forall k :: 0 <= k < |r| ==> r[k] < |j.ns|
  {
    Pick(LeftNew(j), a.unmatchedNew)
  }

  function RemovedIndices(j: Job, a: Assignment): (r: seq<nat>)
    requires Fits(j, a)
    ensures forall k :: 0 <= k < |r| ==> r[k] < |j.os|
  {
    Pick(LeftOld(j), a.unmatchedOld)
  }

  // --- the partition ---

  lemma {:induction false} LeftsMember(es: seq<Edge>, x: nat)
    ensures x in Lefts(es) <==> exists k :: 0 <= k < |es| && es[k].left == x
  {
    if es == [] {
    } else {
      LeftsMember(es[..|es| - 1], x);
      assert forall k :: 0 <= k < |es| - 1 ==> es[..|es| - 1][k] == es[k];
    }
  }

  /** The edges `lo`-`ln` that the edges `es` point at. */
  function Mapped(lo: seq<nat>, ln: seq<nat>, es: seq<Edge>): (r: seq<Edge>)
    requires forall k :: 0 <= k < |es| ==> es[k].left < |lo| && es[k].right < |ln|
    ensures |r| == |es| && forall k :: 0 <= k < |es| ==> r[k] == Edge(lo[es[k].left], ln[es[k].right])
  {
    seq(|es|, k requires 0 <= k < |es| => Edge(lo[es[k].left], ln[es[k].right]))
  }

  /** What the two stages use together on the old side. */
  lemma LeftsOfBoth(s: seq<Edge>, lo: seq<nat>, ln: seq<nat>, es: seq<Edge>, x: nat)
    requires forall k :: 0 <= k < |es| ==> es[k].left < |lo| && es[k].right < |ln|
    ensures x in Lefts(s + Mapped(lo, ln, es)) <==> x in Lefts(s) || StandsAt(lo, Lefts(es), x)
  {
    var m := Mapped(lo, ln, es);
    LeftsMember(s + m, x);
    LeftsMember(s, x);
    hide Lefts, Mapped;
    if k :| 0 <= k < |s| && s[k].left == x {
      assert (s + m)[k].left == x;
    }
    if StandsAt(lo, Lefts(es), x) {
      var i :| i in Lefts(es) && i < |lo| && lo[i] == x;
      LeftsMember(es, i);
      var k :| 0 <= k < |es| && es[k].left == i;
      assert (s + m)[|s| + k].left == x;
    }
    if x in Lefts(s + m) && x !in Lefts(s) {
      var k :| 0 <= k < |s + m| && (s + m)[k].left == x;
      assert (s + m)[k] == m[k - |s|];
      LeftsMember(es, es[k - |s|].left);
    }
  }

  lemma FlipMapped(s: seq<Edge>, lo: seq<nat>, ln: seq<nat>, es: seq<Edge>)
    requires forall k :: 0 <= k < |es| ==> es[k].left < |lo| && es[k].right < |ln|
    ensures Flip(s + Mapped(lo, ln, es)) == Flip(s) + Mapped(ln, lo, Flip(es))
  {
  }

  /** Indices into the leftovers of one stage, mapped back, are the leftovers of both. */
  lemma LeftoversCompose(n: nat, s: seq<Edge>, ln: seq<nat>, es: seq<Edge>)
    requires forall k :: 0 <= k < |es| ==> es[k].left < |Others(n, Lefts(s))| && es[k].right < |ln|
    ensures var lo := Others(n, Lefts(s));
            Pick(lo, Others(|lo|, Lefts(es))) == Others(n, Lefts(s + Mapped(lo, ln, es)))
  {
    var lo := Others(n, Lefts(s));
    var all := Lefts(s + Mapped(lo, ln, es));
    hide Lefts, Mapped, StandsAt, Pick, Others;
    forall x: nat ensures x in all <==> x in Lefts(s) || StandsAt(lo, Lefts(es), x) {
      LeftsOfBoth(s, lo, ln, es, x);
    }
    OthersPick(n, Lefts(s), Lefts(es), all);
  }

  ghost predicate Apart(lo: seq<nat>, used: set<nat>) {
    && (forall i, k :: 0 <= i < k < |lo| ==> lo[i] != lo[k])
    && (forall i :: 0 <= i < |lo| ==> lo[i] !in used)
  }

  lemma BothOneToOne(s: seq<Edge>, lo: seq<nat>, ln: seq<nat>, es: seq<Edge>)
    requires forall k :: 0 <= k < |es| ==> es[k].left < |lo| && es[k].right < |ln|
    requires OneToOne(s) && OneToOne(es) && Apart(lo, Lefts(s)) && Apart(ln, Rights(s))
    ensures OneToOne(s + Mapped(lo, ln, es))
  {
    var m := Mapped(lo, ln, es);
    forall i, k | 0 <= i < |s| && 0 <= k < |m| ensures !Touches(s[i], m[k]) {
      BlockedBySides(s, m[k]);
    }
    hide Mapped, Lefts, Rights;
    forall i, k | 0 <= i < k < |m| ensures !Touches(m[i], m[k]) {
      assert !Touches(es[i], es[k]);
    }
    assert forall i :: |s| <= i < |s + m| ==> (s + m)[i] == m[i - |s|];
  }

  lemma MatchedEdges(j: Job, a: Assignment)
    requires Fits(j, a)
    ensures forall k :: 0 <= k < |a.pairs| ==>
              Edges(a.pairs)[k].left < |LeftOld(j)| && Edges(a.pairs)[k].right < |LeftNew(j)|
    ensures Edges(MatchedPairs(j, a)) == Structural(j) + Mapped(LeftOld(j), LeftNew(j), Edges(a.pairs))
  {
    hide Structural, LeftOld, LeftNew;
  }

  lemma ResidualFits(j: Job, a: Assignment)
    requires Residual(j, a)
    ensures Fits(j, a) && OneToOne(Edges(a.pairs))
    ensures a.unmatchedOld == Others(|LeftOld(j)|, Lefts(Edges(a.pairs)))
    ensures a.unmatchedNew == Others(|LeftNew(j)|, Rights(Edges(a.pairs)))
  {
    hide Assigned, LeftOld, LeftNew, OneToOne, Lefts, Rights, Others;
    AssignedPartition(TitlesAt(j.os, LeftOld(j)), TitlesAt(j.ns, LeftNew(j)), j.sim, j.tau, a);
    forall k | 0 <= k < |a.pairs| ensures Edges(a.pairs)[k] == a.pairs[k].edge {
    }
  }

  lemma ResidualApart(j: Job)
    ensures OneToOne(Structural(j)) && Apart(LeftOld(j), Lefts(Structural(j)))
            && Apart(LeftNew(j), Rights(Structural(j)))
  {
    hide Aligned;
    AlignedPairs(j.s.Alphabet(), j.os, j.ns, |j.os|);
  }

  /** Through alignment, matching of the rest and mapping back of indices, both documents are partitioned:
      no section is matched twice, and the removed and created lists are the other sections, once each and
      in order. */
  lemma PipelinePartition(j: Job, a: Assignment)
    requires Residual(j, a)
    ensures Fits(j, a)
    ensures var es := Edges(MatchedPairs(j, a));
            && OneToOne(es)
            && RemovedIndices(j, a) == Others(|j.os|, Lefts(es))
            && CreatedIndices(j, a) == Others(|j.ns|, Rights(es))
  {
    ResidualFits(j, a);
    ResidualApart(j);
    MatchedEdges(j, a);
    var s, lo, ln, es := Structural(j), LeftOld(j), LeftNew(j), Edges(a.pairs);
    assert lo == Others(|j.os|, Lefts(s)) && ln == Others(|j.ns|, Rights(s));
    hide Structural, LeftOld, LeftNew, Mapped, Apart, OneToOne, MatchedPairs, Others, Lefts, Rights, Pick,
      Residual, Fits,
      Edges;
    BothOneToOne(s, lo, ln, es);
    LeftoversCompose(|j.os|, s, ln, es);
    FlipSides(s);
    FlipSides(es);
    FlipSides(s + Mapped(lo, ln, es));
    FlipMapped(s, lo, ln, es);
    LeftoversCompose(|j.ns|, Flip(s), lo, Flip(es));
  }

  lemma EdgeCounts(n: nat, es: seq<Edge>)
    requires OneToOne(es) && forall k :: 0 <= k < |es| ==> es[k].left < n
    ensures |es| + |Others(n, Lefts(es))| == n
  {
    SideCounts(es);
    hide OneToOne, Others, Lefts;
    forall x | x in Lefts(es) ensures x < n { LeftsMember(es, x); }
    OthersCount(n, Lefts(es));
  }

  lemma FlipOneToOne(es: seq<Edge>)
    requires OneToOne(es)
    ensures OneToOne(Flip(es))
  {
  }

  lemma StructuralInRange(j: Job, k: nat)
    requires k < |Structural(j)|
    ensures Structural(j)[k].left < |j.os| && Structural(j)[k].right < |j.ns|
    ensures Key(j.s.Alphabet(), j.os[Structural(j)[k].left]) == Key(j.s.Alphabet(), j.ns[Structural(j)[k].right])
  {
    AlignedPairs(j.s.Alphabet(), j.os, j.ns, |j.os|);
    hide Aligned, Key;
  }

  lemma MatchedInRange(j: Job, a: Assignment, k: nat)
    requires Fits(j, a) && k < |MatchedPairs(j, a)|
    ensures MatchedPairs(j, a)[k].edge.left < |j.os| && MatchedPairs(j, a)[k].edge.right < |j.ns|
    ensures k < |Structural(j)| ==> MatchedPairs(j, a)[k] == Pair(Structural(j)[k], 1.0)
  {
    hide Structural, LeftOld, LeftNew;
    if k < |Structural(j)| {
      StructuralInRange(j, k);
    }
  }

  /** Every section is matched, or removed, or created. */
  lemma PipelineCounts(j: Job, a: Assignment)
    requires Residual(j, a) && Fits(j, a)
    ensures |MatchedPairs(j, a)| + |RemovedIndices(j, a)| == |j.os|
    ensures |MatchedPairs(j, a)| + |CreatedIndices(j, a)| == |j.ns|
  {
    PipelinePartition(j, a);
    var pairs := MatchedPairs(j, a);
    forall k: nat | k < |pairs| ensures pairs[k].edge.left < |j.os| && pairs[k].edge.right < |j.ns| {
      MatchedInRange(j, a, k);
    }
    CountsOf(j, pairs, Edges(pairs));
  }

  lemma CountsOf(j: Job, pairs: seq<Pair>, es: seq<Edge>)
    requires es == Edges(pairs) && OneToOne(es)
    requires forall k :: 0 <= k < |pairs| ==> pairs[k].edge.left < |j.os| && pairs[k].edge.right < |j.ns|
    ensures |pairs| + |Others(|j.os|, Lefts(es))| == |j.os|
    ensures |pairs| + |Others(|j.ns|, Rights(es))| == |j.ns|
  {
    EdgeCounts(|j.os|, es);
    FlipSides(es);
    FlipOneToOne(es);
    EdgeCounts(|j.ns|, Flip(es));
  }
}
