/** The change list of the diff engine (packages/diff_engine/engine.py): which rows it holds, in which
    order, and what its summary counts. */
module DiffReport {
  import opened DiffPipeline
  import opened GreedyPairs
  import opened Increasing
  import opened Lexicographic
  import opened Matching
  import opened Materiality
  import opened ObligationDiff
  import opened Options
  import opened SemanticDiff
  import opened Sorting
  import opened StructuralDiff
  import opened Titles

  type Section = ObligationDiff.Section

  // --- counting and ordering rows ---

  function CountWhere(p: ChangeRow -> bool, rows: seq<ChangeRow>): nat {
    if rows == [] then 0
    else CountWhere(p, rows[..|rows| - 1]) + (if p(rows[|rows| - 1]) then 1 else 0)
  }

  function Digit(d: nat): char
    requires d < 10
  {
    "0123456789"[d]
  }

  function Decimal(n: nat): string {
    if n < 10 then [Digit(n)] else Decimal(n / 10) + [Digit(n % 10)]
  }

  /** The reference a row is ordered by. */
  function Ref(row: ChangeRow): string {
    if row.newNumber.Some? then ['\U{A7}'] + Decimal(row.newNumber.value)
    else if row.oldNumber.Some? then ['\U{A7}'] + Decimal(row.oldNumber.value)
    else ""
  }

  function TypeOrder(kind: ChangeKind): nat {
    match kind
    case Created => 0
    case Modified => 1
    case Removed => 2
  }

  /** Material rows first, then by type, then by reference. */
  predicate RowLeq(a: ChangeRow, b: ChangeRow) {
    if a.RequiresConfirmation() != b.RequiresConfirmation() then a.RequiresConfirmation()
    else if TypeOrder(a.kind) != TypeOrder(b.kind) then TypeOrder(a.kind) < TypeOrder(b.kind)
    else StringLeq(Ref(a), Ref(b))
  }

  lemma RowOrder()
    ensures TotalPreorder(RowLeq)
  {
    StringOrder();
    hide Ref, StringLess, TypeOrder, MaterialityVerdict.RequiresConfirmation, ChangeRow.RequiresConfirmation;
    forall x, y ensures RowLeq(x, y) || RowLeq(y, x) {
      assert StringLess(Ref(x), Ref(y)) || Ref(x) == Ref(y) || StringLess(Ref(y), Ref(x));
    }
    forall x, y, z | RowLeq(x, y) && RowLeq(y, z) ensures RowLeq(x, z) {
      assert StringLess(Ref(x), Ref(y)) && StringLess(Ref(y), Ref(z)) ==> StringLess(Ref(x), Ref(z));
    }
  }

  lemma {:induction false} CountConcat(p: ChangeRow -> bool, a: seq<ChangeRow>, b: seq<ChangeRow>)
    ensures CountWhere(p, a + b) == CountWhere(p, a) + CountWhere(p, b)
  {
    if b == [] {
      assert a + b == a;
    } else {
      CountConcat(p, a, b[..|b| - 1]);
      assert (a + b)[..|a + b| - 1] == a + b[..|b| - 1];
    }
  }

  lemma {:induction false} CountInsert(p: ChangeRow -> bool, s: seq<ChangeRow>, x: ChangeRow)
    ensures CountWhere(p, Insert(RowLeq, s, x)) == CountWhere(p, s) + (if p(x) then 1 else 0)
  {
    hide RowLeq;
    if s == [] || RowLeq(s[|s| - 1], x) {
      assert (s + [x])[..|s|] == s;
    } else {
      var t, last := s[..|s| - 1], s[|s| - 1];
      CountInsert(p, t, x);
      assert (Insert(RowLeq, t, x) + [last])[..|Insert(RowLeq, t, x)|] == Insert(RowLeq, t, x);
    }
  }

  /** Sorting changes no count. */
  lemma {:induction false} CountSorted(p: ChangeRow -> bool, s: seq<ChangeRow>)
    ensures CountWhere(p, SortBy(RowLeq, s)) == CountWhere(p, s)
  {
    hide RowLeq, Insert;
    if s == [] {
    } else {
      CountSorted(p, s[..|s| - 1]);
      CountInsert(p, SortBy(RowLeq, s[..|s| - 1]), s[|s| - 1]);
    }
  }

  lemma {:induction false} CountAll(p: ChangeRow -> bool, s: seq<ChangeRow>, all: bool)
    requires forall k :: 0 <= k < |s| ==> p(s[k]) == all
    ensures CountWhere(p, s) == if all then |s| else 0
  {
    if s == [] {
    } else {
      CountAll(p, s[..|s| - 1], all);
    }
  }

  function IsKind(kind: ChangeKind): ChangeRow -> bool {
    (r: ChangeRow) => r.kind == kind
  }

  function IsMaterial(): ChangeRow -> bool {
    (r: ChangeRow) => r.RequiresConfirmation()
  }

  /** In a list with its material rows first, they are its first `k`, where `k` counts them. */
  lemma {:induction false} CountPrefix(s: seq<ChangeRow>, i: nat)
    requires i < |s|
    requires forall a, b :: 0 <= a < b < |s| && s[b].RequiresConfirmation() ==> s[a].RequiresConfirmation()
    ensures s[i].RequiresConfirmation() <==> i < CountWhere(IsMaterial(), s)
  {
    var t := s[..|s| - 1];
    if s[|s| - 1].RequiresConfirmation() {
      CountAll(IsMaterial(), t, true);
    } else if i < |t| {
      CountPrefix(t, i);
    } else if t != [] {
      CountPrefix(t, |t| - 1);
      CountBound(t);
    }
  }

  lemma {:induction false} CountBound(s: seq<ChangeRow>)
    ensures CountWhere(IsMaterial(), s) <= |s|
  {
    if s == [] {
    } else {
      CountBound(s[..|s| - 1]);
    }
  }

  // --- the rows ---

  /** The choices a run makes: the matching of the residual sections and, for each matched pair, the
      comparison of its obligations. */
  datatype Trace = Trace(residual: Assignment, compares: seq<Option<ObligationCompare>>)

  function PairOf(j: Job, a: Assignment, k: nat): (p: Pair)
    requires Fits(j, a) && k < |MatchedPairs(j, a)|
    ensures p.edge.left < |j.os| && p.edge.right < |j.ns|
  {
    MatchedInRange(j, a, k);
    MatchedPairs(j, a)[k]
  }

  ghost predicate Shaped(j: Job, t: Trace) {
    Fits(j, t.residual) && |t.compares| == |MatchedPairs(j, t.residual)|
  }

  /** What the engine may do on the job. */
  ghost predicate IsTrace(j: Job, t: Trace) {
    && Residual(j, t.residual) && Shaped(j, t)
    && forall k: nat :: k < |t.compares| ==> ComparesAt(j, t.residual, k, t.compares[k])
  }

  ghost predicate ComparesAt(j: Job, a: Assignment, k: nat, obl: Option<ObligationCompare>)
    requires Fits(j, a) && k < |MatchedPairs(j, a)|
  {
    var e := PairOf(j, a, k).edge;
    Compares(j.s, Lookup(j.oldObls, j.os[e.left].number), Lookup(j.newObls, j.ns[e.right].number), obl)
  }

  /** The residual sections are matched as the tie-break has it, when both sides have some. */
  ghost predicate ResidualFirst(j: Job, a: Assignment) {
    AssignedFirst(TitlesAt(j.os, LeftOld(j)), TitlesAt(j.ns, LeftNew(j)), j.sim, j.tau, a)
  }

  /** What it does when the solver breaks ties by the smallest indices. */
  ghost predicate IsFirstTrace(j: Job, t: Trace) {
    && IsTrace(j, t)
    && ResidualFirst(j, t.residual)
    && forall k: nat :: k < |t.compares| ==> ComparesFirstAt(j, t.residual, k, t.compares[k])
  }

  ghost predicate ComparesFirstAt(j: Job, a: Assignment, k: nat, obl: Option<ObligationCompare>)
    requires Fits(j, a) && k < |MatchedPairs(j, a)|
  {
    var e := PairOf(j, a, k).edge;
    ComparesFirst(j.s, Lookup(j.oldObls, j.os[e.left].number), Lookup(j.newObls, j.ns[e.right].number), obl)
  }

  function RowAt(j: Job, a: Assignment, k: nat, obl: Option<ObligationCompare>): Option<ChangeRow>
    requires Fits(j, a) && k < |MatchedPairs(j, a)|
  {
    var p := PairOf(j, a, k);
    PairRow(j.s, j.os[p.edge.left], j.ns[p.edge.right], p.similarity, obl)
  }

  /** The rows of the first matched pairs, as many as there are comparisons. */
  function ModifiedRows(j: Job, a: Assignment, cs: seq<Option<ObligationCompare>>): seq<ChangeRow>
    requires Fits(j, a) && |cs| <= |MatchedPairs(j, a)|
  {
    if cs == [] then []
    else
      var k := |cs| - 1;
      ModifiedRows(j, a, cs[..k]) + (if RowAt(j, a, k, cs[k]).Some? then [RowAt(j, a, k, cs[k]).value] else [])
  }

  function Suppressed(j: Job, a: Assignment, cs: seq<Option<ObligationCompare>>): nat
    requires Fits(j, a) && |cs| <= |MatchedPairs(j, a)|
  {
    if cs == [] then 0
    else
      var k := |cs| - 1;
      Suppressed(j, a, cs[..k]) + (if RowAt(j, a, k, cs[k]).Some? then 0 else 1)
  }

  function CreatedRows(s: Settings, ns: seq<Section>, js: seq<nat>): (r: seq<ChangeRow>)
    requires forall k :: 0 <= k < |js| ==> js[k] < |ns|
    ensures |r| == |js|
  {
    seq(|js|, k requires 0 <= k < |js| => DiffCreated(s, ns[js[k]]))
  }

  function RemovedRows(s: Settings, os: seq<Section>, js: seq<nat>): (r: seq<ChangeRow>)
    requires forall k :: 0 <= k < |js| ==> js[k] < |os|
    ensures |r| == |js|
  {
    seq(|js|, k requires 0 <= k < |js| => DiffRemoved(s, os[js[k]]))
  }

  function Unsorted(j: Job, t: Trace): seq<ChangeRow>
    requires Shaped(j, t)
  {
    ModifiedRows(j, t.residual, t.compares)
    + CreatedRows(j.s, j.ns, CreatedIndices(j, t.residual))
    + RemovedRows(j.s, j.os, RemovedIndices(j, t.residual))
  }

  function Changes(j: Job, t: Trace): seq<ChangeRow>
    requires Shaped(j, t)
  {
    SortBy(RowLeq, Unsorted(j, t))
  }

  datatype Summary = Summary(created: nat, modified: nat, removed: nat, material: nat, cosmeticSuppressed: nat)

  function Summarize(changes: seq<ChangeRow>, suppressed: nat): Summary {
    Summary(CountWhere(IsKind(Created), changes), CountWhere(IsKind(Modified), changes),
            CountWhere(IsKind(Removed), changes), CountWhere(IsMaterial(), changes), suppressed)
  }

  /** The summary a run returns with its changes. */
  function Tallies(j: Job, t: Trace): Summary
    requires Shaped(j, t)
  {
    Summarize(Changes(j, t), Suppressed(j, t.residual, t.compares))
  }

  // --- the run ---

  method Tally(p: ChangeRow -> bool, rows: seq<ChangeRow>) returns (n: nat)
    ensures n == CountWhere(p, rows)
  {
    n := 0;
    for k := 0 to |rows|
      invariant n == CountWhere(p, rows[..k])
    {
      assert rows[..k + 1][..k] == rows[..k];
      if p(rows[k]) { n := n + 1; }
    }
    assert rows[..|rows|] == rows;
  }

  /** Alignment, then matching of what is left over when both sides have something left over. */
  method MatchSections(j: Job) returns (matched: seq<Pair>, created: seq<nat>, removed: seq<nat>, ghost a: Assignment)
    ensures Residual(j, a) && Fits(j, a) && ResidualFirst(j, a)
    ensures matched == MatchedPairs(j, a) && created == CreatedIndices(j, a) && removed == RemovedIndices(j, a)
  {
    hide Assigned, AssignedFirst, Aligned, Others, Lefts, Rights;
    var struct := AlignSections(j.s.Alphabet(), j.os, j.ns);
    var lo, ln := struct.leftoverOld, struct.leftoverNew;
    assert struct.matched == Structural(j) && lo == LeftOld(j) && ln == LeftNew(j);
    hide Structural, LeftOld, LeftNew, AlignedUpTo;
    matched := seq(|struct.matched|, k requires 0 <= k < |struct.matched| => Pair(struct.matched[k], 1.0));
    if lo != [] && ln != [] {
      var assign := MatchTexts(TitlesAt(j.os, lo), TitlesAt(j.ns, ln), j.tau, j.sim);
      a := assign;
      ResidualFits(j, a);
      matched := matched + seq(|assign.pairs|, k requires 0 <= k < |assign.pairs| => Remap(lo, ln, assign.pairs[k]));
      created := Pick(ln, assign.unmatchedNew);
      removed := Pick(lo, assign.unmatchedOld);
    } else {
      a := Assignment([], Others(|lo|, {}), Others(|ln|, {}));
      NothingAssigned(TitlesAt(j.os, lo), TitlesAt(j.ns, ln), j.sim, j.tau);
      ResidualFits(j, a);
      created, removed := ln, lo;
      PickAll(ln);
      PickAll(lo);
      assert matched == MatchedPairs(j, a);
    }
  }

  lemma PickAll(xs: seq<nat>)
    ensures Pick(xs, Others(|xs|, {})) == xs
  {
    OthersAll(|xs|);
  }

  method DiffPairAt(j: Job, p: Pair, ghost a: Assignment, ghost k: nat)
    returns (row: Option<ChangeRow>, ghost compare: Option<ObligationCompare>)
    requires Fits(j, a) && k < |MatchedPairs(j, a)| && p == PairOf(j, a, k)
    ensures ComparesAt(j, a, k, compare) && ComparesFirstAt(j, a, k, compare) && row == RowAt(j, a, k, compare)
  {
    hide MatchedPairs, Fits, PairOf, PairRow, Compares, ComparesFirst, Lookup;
    var o, n := j.os[p.edge.left], j.ns[p.edge.right];
    row, compare := DiffPair(j.s, o, n, p.similarity, Lookup(j.oldObls, o.number), Lookup(j.newObls, n.number));
  }

  /** Comparisons the engine may make, and has made with this solver, for the first matched pairs. */
  ghost predicate MadeFor(j: Job, a: Assignment, cs: seq<Option<ObligationCompare>>)
    requires Fits(j, a) && |cs| <= |MatchedPairs(j, a)|
  {
    forall k: nat :: k < |cs| ==> ComparesAt(j, a, k, cs[k]) && ComparesFirstAt(j, a, k, cs[k])
  }

  /** The rows and the count collected from the comparisons `cs`. */
  ghost predicate Collected(j: Job, a: Assignment, cs: seq<Option<ObligationCompare>>,
                            rows: seq<ChangeRow>, suppressed: nat)
    requires Fits(j, a)
  {
    && |cs| <= |MatchedPairs(j, a)| && MadeFor(j, a, cs)
    && rows == ModifiedRows(j, a, cs) && suppressed == Suppressed(j, a, cs)
  }

  lemma CollectStep(j: Job, a: Assignment, cs: seq<Option<ObligationCompare>>, obl: Option<ObligationCompare>,
                    rows: seq<ChangeRow>, suppressed: nat)
    requires Fits(j, a) && |cs| < |MatchedPairs(j, a)| && Collected(j, a, cs, rows, suppressed)
    requires ComparesAt(j, a, |cs|, obl) && ComparesFirstAt(j, a, |cs|, obl)
    ensures var row := RowAt(j, a, |cs|, obl);
            Collected(j, a, cs + [obl], rows + (if row.Some? then [row.value] else []),
                      suppressed + (if row.Some? then 0 else 1))
  {
    hide MatchedPairs, Fits, RowAt, ComparesAt, ComparesFirstAt;
    assert (cs + [obl])[..|cs|] == cs;
    MadeForStep(j, a, cs, obl);
    hide MadeFor;
  }

  lemma MadeForStep(j: Job, a: Assignment, cs: seq<Option<ObligationCompare>>, obl: Option<ObligationCompare>)
    requires Fits(j, a) && |cs| < |MatchedPairs(j, a)| && MadeFor(j, a, cs)
    requires ComparesAt(j, a, |cs|, obl) && ComparesFirstAt(j, a, |cs|, obl)
    ensures MadeFor(j, a, cs + [obl])
  {
    hide MatchedPairs, Fits, ComparesAt, ComparesFirstAt;
  }

  method CollectModified(j: Job, matched: seq<Pair>, ghost a: Assignment)
    returns (rows: seq<ChangeRow>, suppressed: nat, ghost cs: seq<Option<ObligationCompare>>)
    requires Fits(j, a) && matched == MatchedPairs(j, a)
    ensures |cs| == |matched| && Collected(j, a, cs, rows, suppressed)
  {
    hide MatchedPairs, Fits, RowAt, ComparesAt, ComparesFirstAt;
    rows, suppressed, cs := [], 0, [];
    assert Collected(j, a, cs, rows, suppressed);
    hide Collected;
    for k := 0 to |matched|
      invariant |cs| == k && Collected(j, a, cs, rows, suppressed)
    {
      var row, compare := DiffPairAt(j, matched[k], a, k);
      CollectStep(j, a, cs, compare, rows, suppressed);
      cs := cs + [compare];
      if row.Some? {
        rows := rows + [row.value];
      } else {
        suppressed := suppressed + 1;
      }
    }
  }

  method RunDiffPipeline(j: Job) returns (changes: seq<ChangeRow>, summary: Summary, ghost t: Trace)
    ensures IsTrace(j, t) && IsFirstTrace(j, t)
    ensures changes == Changes(j, t) && summary == Tallies(j, t)
  {
    hide Residual, ResidualFirst, MatchedPairs, Fits, RowLeq, ComparesAt, ComparesFirstAt, ModifiedRows, Suppressed,
      CreatedRows, RemovedRows, CreatedIndices, RemovedIndices, CountWhere, SortBy;
    var matched, created, removed, a := MatchSections(j);
    var rows, suppressed, cs := CollectModified(j, matched, a);
    t := Trace(a, cs);
    rows := rows + CreatedRows(j.s, j.ns, created) + RemovedRows(j.s, j.os, removed);
    changes := SortBy(RowLeq, rows);
    var c := Tally(IsKind(Created), changes);
    var m := Tally(IsKind(Modified), changes);
    var r := Tally(IsKind(Removed), changes);
    var material := Tally(IsMaterial(), changes);
    summary := Summary(c, m, r, material, suppressed);
  }

  // --- conservation ---

  lemma {:induction false} ModifiedOrSuppressed(j: Job, a: Assignment, cs: seq<Option<ObligationCompare>>)
    requires Fits(j, a) && |cs| <= |MatchedPairs(j, a)|
    ensures |ModifiedRows(j, a, cs)| + Suppressed(j, a, cs) == |cs|
    ensures forall i :: 0 <= i < |ModifiedRows(j, a, cs)| ==> ModifiedRows(j, a, cs)[i].kind == Modified
  {
    hide RowAt, Fits, MatchedPairs;
    if cs == [] {
    } else {
      ModifiedOrSuppressed(j, a, cs[..|cs| - 1]);
      RowAtModified(j, a, |cs| - 1, cs[|cs| - 1]);
    }
  }

  lemma RowAtModified(j: Job, a: Assignment, k: nat, obl: Option<ObligationCompare>)
    requires Fits(j, a) && k < |MatchedPairs(j, a)|
    ensures RowAt(j, a, k, obl).Some? ==> RowAt(j, a, k, obl).value.kind == Modified
  {
    hide PairOf, PairRow, Fits, MatchedPairs;
    var p := PairOf(j, a, k);
    RowModified(j.s, j.os[p.edge.left], j.ns[p.edge.right], p.similarity, obl);
  }

  lemma RowModified(s: Settings, was: Section, now: Section, similarity: real, obl: Option<ObligationCompare>)
    ensures PairRow(s, was, now, similarity, obl).Some? ==> PairRow(s, was, now, similarity, obl).value.kind == Modified
  {
    hide SectionVerdict, TitleVerdict, StableRenumbering, Trusted;
  }

  lemma WholeRows(j: Job, cs: seq<nat>, rs: seq<nat>)
    requires forall k :: 0 <= k < |cs| ==> cs[k] < |j.ns|
    requires forall k :: 0 <= k < |rs| ==> rs[k] < |j.os|
    ensures forall k :: 0 <= k < |cs| ==>
              CreatedRows(j.s, j.ns, cs)[k].kind == Created && CreatedRows(j.s, j.ns, cs)[k].RequiresConfirmation()
    ensures forall k :: 0 <= k < |rs| ==>
              RemovedRows(j.s, j.os, rs)[k].kind == Removed && RemovedRows(j.s, j.os, rs)[k].RequiresConfirmation()
  {
    hide DiffCreated, DiffRemoved, ChangeRow.RequiresConfirmation;
    forall k | 0 <= k < |cs|
      ensures DiffCreated(j.s, j.ns[cs[k]]).kind == Created && DiffCreated(j.s, j.ns[cs[k]]).RequiresConfirmation()
    {
      WholeSectionsConfirmed(j.s, j.ns[cs[k]]);
    }
    forall k | 0 <= k < |rs|
      ensures DiffRemoved(j.s, j.os[rs[k]]).kind == Removed && DiffRemoved(j.s, j.os[rs[k]]).RequiresConfirmation()
    {
      WholeSectionsConfirmed(j.s, j.os[rs[k]]);
    }
  }

  lemma CountKind(m: seq<ChangeRow>, c: seq<ChangeRow>, r: seq<ChangeRow>, p: ChangeRow -> bool)
    ensures CountWhere(p, SortBy(RowLeq, m + c + r)) == CountWhere(p, m) + CountWhere(p, c) + CountWhere(p, r)
  {
    CountSorted(p, m + c + r);
    CountConcat(p, m + c, r);
    CountConcat(p, m, c);
  }

  /** Nothing is lost between matching and summary: every matched pair is reported or suppressed, every
      section that came or went is a row, and the counts add up to the change list and to both documents. */
  lemma PipelineConserves(j: Job, t: Trace)
    requires IsTrace(j, t)
    ensures var changes := Changes(j, t);
            var sum := Tallies(j, t);
            && sum.modified + sum.cosmeticSuppressed == |t.compares|
            && sum.created == |CreatedIndices(j, t.residual)| && sum.removed == |RemovedIndices(j, t.residual)|
            && sum.created + sum.modified + sum.removed == |changes|
            && sum.modified + sum.cosmeticSuppressed + sum.removed == |j.os|
            && sum.modified + sum.cosmeticSuppressed + sum.created == |j.ns|
            && sum.material >= sum.created + sum.removed
  {
    hide Tallies, Residual, ComparesAt, Fits, MatchedPairs, CreatedIndices, RemovedIndices, Suppressed, Changes;
    PipelineCounts(j, t.residual);
    ReportCounts(j, t);
  }

  lemma ReportCounts(j: Job, t: Trace)
    requires Shaped(j, t)
    ensures var sum := Tallies(j, t);
            && sum.modified + sum.cosmeticSuppressed == |t.compares|
            && sum.created == |CreatedIndices(j, t.residual)| && sum.removed == |RemovedIndices(j, t.residual)|
            && sum.created + sum.modified + sum.removed == |Changes(j, t)|
            && sum.material >= sum.created + sum.removed
  {
    hide CreatedIndices, RemovedIndices, CountWhere, SortBy, MatchedPairs, Fits, ModifiedRows, CreatedRows, RemovedRows,
      ChangeRow.RequiresConfirmation;
    ModifiedOrSuppressed(j, t.residual, t.compares);
    var cs, rs := CreatedIndices(j, t.residual), RemovedIndices(j, t.residual);
    WholeRows(j, cs, rs);
    KindCounts(ModifiedRows(j, t.residual, t.compares), CreatedRows(j.s, j.ns, cs), RemovedRows(j.s, j.os, rs));
  }

  lemma KindCounts(m: seq<ChangeRow>, c: seq<ChangeRow>, r: seq<ChangeRow>)
    requires forall k :: 0 <= k < |m| ==> m[k].kind == Modified
    requires forall k :: 0 <= k < |c| ==> c[k].kind == Created && c[k].RequiresConfirmation()
    requires forall k :: 0 <= k < |r| ==> r[k].kind == Removed && r[k].RequiresConfirmation()
    ensures var s := SortBy(RowLeq, m + c + r);
            && CountWhere(IsKind(Modified), s) == |m| && CountWhere(IsKind(Created), s) == |c|
            && CountWhere(IsKind(Removed), s) == |r| && CountWhere(IsMaterial(), s) >= |c| + |r|
  {
    hide CountWhere, SortBy, ChangeRow.RequiresConfirmation;
    CountKind(m, c, r, IsKind(Modified));
    CountKind(m, c, r, IsKind(Created));
    CountKind(m, c, r, IsKind(Removed));
    CountKind(m, c, r, IsMaterial());
    CountAll(IsKind(Modified), m, true);
    CountAll(IsKind(Modified), c, false);
    CountAll(IsKind(Modified), r, false);
    CountAll(IsKind(Created), m, false);
    CountAll(IsKind(Created), c, true);
    CountAll(IsKind(Created), r, false);
    CountAll(IsKind(Removed), m, false);
    CountAll(IsKind(Removed), c, false);
    CountAll(IsKind(Removed), r, true);
    CountAll(IsMaterial(), c, true);
    CountAll(IsMaterial(), r, true);
  }

  /** The rows to confirm come first, and `material` says how many they are. */
  lemma MaterialFirst(j: Job, t: Trace, i: nat)
    requires Shaped(j, t) && i < |Changes(j, t)|
    ensures Changes(j, t)[i].RequiresConfirmation() <==>
            i < Tallies(j, t).material
  {
    var changes := Changes(j, t);
    RowOrder();
    SortBySorted(RowLeq, Unsorted(j, t));
    hide Unsorted, SortBy, Shaped, ChangeRow.RequiresConfirmation, Ref, TypeOrder;
    assert forall a, b :: 0 <= a < b < |changes| ==> RowLeq(changes[a], changes[b]);
    hide Changes, CountWhere;
    CountPrefix(changes, i);
  }

  // --- renumbering never surfaces ---

  lemma {:induction false} NoRows(j: Job, a: Assignment, cs: seq<Option<ObligationCompare>>)
    requires Fits(j, a) && |cs| <= |MatchedPairs(j, a)| && forall q: nat :: q < |cs| ==> RowAt(j, a, q, cs[q]).None?
    ensures ModifiedRows(j, a, cs) == [] && Suppressed(j, a, cs) == |cs|
  {
    hide RowAt, Fits, MatchedPairs;
    if cs == [] {
    } else {
      NoRows(j, a, cs[..|cs| - 1]);
    }
  }

  predicate SameCanonical(j: Job, e: Edge)
    requires e.left < |j.os| && e.right < |j.ns|
  {
    CanonicalTitle(j.s.Alphabet(), j.os[e.left].title) == CanonicalTitle(j.s.Alphabet(), j.ns[e.right].title)
  }

  lemma RowReported(j: Job, a: Assignment, k: nat, obl: Option<ObligationCompare>)
    requires Proper(j.s.Alphabet()) && Fits(j, a) && k < |MatchedPairs(j, a)|
    ensures var e := PairOf(j, a, k).edge;
            RowAt(j, a, k, obl).Some? <==>
            !SameCanonical(j, e) || (Trusted(obl) && !StableRenumbering(j.s, j.os[e.left], j.ns[e.right]))
  {
    hide Fits, MatchedPairs, PairOf, PairRow, CanonicalTitle, LexicalSimilarity, Trusted, Proper;
    var p := PairOf(j, a, k);
    PairReported(j.s, j.os[p.edge.left], j.ns[p.edge.right], p.similarity, obl);
  }

  /** With the same titles on both sides, every pair shares its canonical title and nothing comes or goes. */
  lemma SameTitlesPair(j: Job, t: Trace)
    requires Proper(j.s.Alphabet()) && IsTrace(j, t)
    requires multiset(Keys(j.s.Alphabet(), j.os)) == multiset(Keys(j.s.Alphabet(), j.ns))
    ensures CreatedIndices(j, t.residual) == [] && RemovedIndices(j, t.residual) == []
    ensures |t.compares| == |j.os| == |j.ns|
    ensures forall k: nat :: k < |t.compares| ==> SameCanonical(j, PairOf(j, t.residual, k).edge)
  {
    var al := j.s.Alphabet();
    SameTitlesAlign(al, j.os, j.ns);
    assert LeftOld(j) == [] && LeftNew(j) == [];
    ResidualFits(j, t.residual);
    PipelineCounts(j, t.residual);
    assert |CreatedIndices(j, t.residual)| == 0 && |RemovedIndices(j, t.residual)| == 0 by {
      hide Residual, Aligned;
    }
    hide Aligned, Residual, Others, CanonicalTitle, NormalizeForMatch, Compares, CreatedIndices, RemovedIndices;
    forall k: nat | k < |t.compares|
      ensures SameCanonical(j, PairOf(j, t.residual, k).edge)
    {
      assert k < |Structural(j)|;
      StructuralInRange(j, k);
      MatchedInRange(j, t.residual, k);
      var p := PairOf(j, t.residual, k);
      AlignedTitlesAgree(al, j.os[p.edge.left].title, j.ns[p.edge.right].title);
    }
  }

  /** Cosmetic renumbering never surfaces: when both documents have the same titles, counted with
      repetition, in any order and under any numbers, a run without obligation maps reports nothing and
      suppresses every pair. */
  lemma RenumberingInvisible(j: Job, t: Trace)
    requires Proper(j.s.Alphabet()) && IsTrace(j, t)
    requires multiset(Keys(j.s.Alphabet(), j.os)) == multiset(Keys(j.s.Alphabet(), j.ns))
    requires j.oldObls == map[] && j.newObls == map[]
    ensures Changes(j, t) == [] && Suppressed(j, t.residual, t.compares) == |j.os| == |j.ns|
  {
    SameTitlesPair(j, t);
    forall k: nat | k < |t.compares| ensures RowAt(j, t.residual, k, t.compares[k]).None? {
      assert ComparesAt(j, t.residual, k, t.compares[k]);
      hide PairOf, SameCanonical, RowAt;
      RowReported(j, t.residual, k, t.compares[k]);
    }
    hide RowAt, IsTrace;
    NoRows(j, t.residual, t.compares);
  }

  /** With obligation maps, the rows left are modifications whose obligations show a trusted delta, and no
      stably renumbered pair is among them. */
  lemma OnlyTrustedRows(j: Job, t: Trace, k: nat)
    requires Proper(j.s.Alphabet()) && IsTrace(j, t) && k < |t.compares|
    requires multiset(Keys(j.s.Alphabet(), j.os)) == multiset(Keys(j.s.Alphabet(), j.ns))
    ensures var e := PairOf(j, t.residual, k).edge;
            RowAt(j, t.residual, k, t.compares[k]).Some? <==>
            Trusted(t.compares[k]) && !StableRenumbering(j.s, j.os[e.left], j.ns[e.right])
    ensures |Changes(j, t)| == |ModifiedRows(j, t.residual, t.compares)|
  {
    hide PairOf, RowAt, StableRenumbering, Trusted, ModifiedRows, SameCanonical, Residual, Fits, MatchedPairs, Proper,
      ComparesAt, CreatedIndices, RemovedIndices, Keys;
    SameTitlesPair(j, t);
    RowReported(j, t.residual, k, t.compares[k]);
  }

  // --- a document against itself ---

  ghost predicate SelfJob(j: Job) {
    && j.os == j.ns && j.oldObls == j.newObls
    && forall a, b :: 0 <= a < b < |j.os| ==> j.os[a].number != j.os[b].number
  }

  lemma SelfPairs(j: Job, a: Assignment)
    requires SelfJob(j) && Residual(j, a) && Fits(j, a)
    ensures CreatedIndices(j, a) == [] && RemovedIndices(j, a) == [] && |MatchedPairs(j, a)| == |j.os|
    ensures forall k: nat :: k < |MatchedPairs(j, a)| ==> PairOf(j, a, k).edge == Edge(k, k)
  {
    SelfAligned(j.s.Alphabet(), j.os, |j.os|);
    PipelineCounts(j, a);
    hide Residual, Aligned, CreatedIndices, RemovedIndices;
    forall k: nat | k < |MatchedPairs(j, a)| ensures PairOf(j, a, k).edge == Edge(k, k) {
      MatchedInRange(j, a, k);
    }
  }

  /** A section against itself is reported exactly when its comparison shows a trusted delta. */
  lemma SelfRow(j: Job, a: Assignment, k: nat, obl: Option<ObligationCompare>)
    requires SelfJob(j) && Residual(j, a) && Fits(j, a) && Proper(j.s.Alphabet()) && k < |MatchedPairs(j, a)|
    ensures k < |j.os| && PairOf(j, a, k).edge == Edge(k, k)
    ensures RowAt(j, a, k, obl).Some? <==> Trusted(obl)
  {
    SelfPairs(j, a);
    hide PairOf, RowAt, Trusted, Residual, Fits, MatchedPairs, Proper;
    RowReported(j, a, k, obl);
  }

  /** A possible comparison of a section with itself, with a trusted delta if its obligations allow one. */
  ghost predicate Revealing(j: Job, a: Assignment, k: nat, obl: Option<ObligationCompare>)
    requires Fits(j, a) && k < |MatchedPairs(j, a)|
  {
    && ComparesAt(j, a, k, obl)
    && (Trusted(obl) <==> k < |j.os| && !NoLookalikes(j.s, Lookup(j.oldObls, j.os[k].number)))
  }

  lemma {:induction false} SelfTrace(j: Job, a: Assignment, n: nat) returns (cs: seq<Option<ObligationCompare>>)
    requires SelfJob(j) && Residual(j, a) && Fits(j, a) && n <= |MatchedPairs(j, a)|
    ensures |cs| == n
    ensures forall k: nat :: k < n ==> Revealing(j, a, k, cs[k])
  {
    hide Revealing, Residual, Fits, MatchedPairs, SelfJob;
    if n == 0 {
      cs := [];
    } else {
      var rest := SelfTrace(j, a, n - 1);
      var obl := SelfComparesAt(j, a, n - 1);
      cs := rest + [obl];
      forall k: nat | k < n ensures Revealing(j, a, k, cs[k]) {
        assert cs[k] == if k < n - 1 then rest[k] else obl;
      }
    }
  }

  lemma SelfComparesAt(j: Job, a: Assignment, k: nat) returns (obl: Option<ObligationCompare>)
    requires SelfJob(j) && Residual(j, a) && Fits(j, a) && k < |MatchedPairs(j, a)|
    ensures Revealing(j, a, k, obl)
  {
    SelfPairs(j, a);
    hide PairOf, Trusted, NoLookalikes, Compares, Residual, Fits, MatchedPairs, Lookup;
    obl := SelfCompares(j.s, Lookup(j.oldObls, j.os[k].number));
    assert PairOf(j, a, k).edge == Edge(k, k);
  }

  /** Some matching of the residual sections exists: nothing is left over. */
  lemma SelfResidual(j: Job)
    requires SelfJob(j)
    ensures Residual(j, Assignment([], [], [])) && Fits(j, Assignment([], [], []))
  {
    SelfLeftovers(j);
    hide Assigned, LeftOld, LeftNew;
    NothingAssigned(TitlesAt(j.os, LeftOld(j)), TitlesAt(j.ns, LeftNew(j)), j.sim, j.tau);
    assert Others(0, {}) == [];
  }

  lemma SelfLeftovers(j: Job)
    requires SelfJob(j)
    ensures LeftOld(j) == [] && LeftNew(j) == []
  {
    var es := Structural(j);
    SelfAligned(j.s.Alphabet(), j.os, |j.os|);
    hide Aligned, Others, Lefts, Rights;
    forall x: nat | x < |j.os| ensures x in Lefts(es) {
      assert es[x].left == x;
      LeftsMember(es, x);
    }
    AllUsed(|j.os|, Lefts(es));
    AllUsed(|j.ns|, Rights(es));
  }

  /** A document compared with itself, obligation maps and all: the solver's contract alone excludes a report
      exactly when no section holds two obligations that read the same and differ in a field. */
  lemma SelfDiffSilent(j: Job)
    requires SelfJob(j) && Proper(j.s.Alphabet())
    ensures (forall t :: IsTrace(j, t) ==> Changes(j, t) == []) <==>
            forall k :: 0 <= k < |j.os| ==> NoLookalikes(j.s, Lookup(j.oldObls, j.os[k].number))
  {
    hide Changes, NoLookalikes, Proper, Residual, Fits, MatchedPairs, ComparesAt;
    if forall k :: 0 <= k < |j.os| ==> NoLookalikes(j.s, Lookup(j.oldObls, j.os[k].number)) {
      forall t | IsTrace(j, t) ensures Changes(j, t) == [] {
        SelfSilent(j, t);
      }
    } else {
      var k :| 0 <= k < |j.os| && !NoLookalikes(j.s, Lookup(j.oldObls, j.os[k].number));
      var t := SelfNoisy(j, k);
    }
  }

  /** With ties broken by the smallest indices, a document compared with itself reports nothing. */
  lemma SelfDiffFirst(j: Job, t: Trace)
    requires SelfJob(j) && Proper(j.s.Alphabet()) && IsFirstTrace(j, t)
    ensures Changes(j, t) == []
  {
    SelfPairs(j, t.residual);
    hide PairOf, RowAt, Trusted, ComparesFirst, Compares, Residual, Fits, MatchedPairs, Proper, CreatedIndices,
      RemovedIndices, ComparesAt;
    forall k: nat | k < |t.compares| ensures RowAt(j, t.residual, k, t.compares[k]).None? {
      assert ComparesFirstAt(j, t.residual, k, t.compares[k]);
      SelfRow(j, t.residual, k, t.compares[k]);
      SelfComparesFirst(j.s, Lookup(j.oldObls, j.os[k].number), t.compares[k]);
    }
    NoRows(j, t.residual, t.compares);
    hide ModifiedRows, Suppressed, ComparesFirstAt;
    assert |Changes(j, t)| == 0;
  }

  lemma SelfSilent(j: Job, t: Trace)
    requires SelfJob(j) && Proper(j.s.Alphabet()) && IsTrace(j, t)
    requires forall k :: 0 <= k < |j.os| ==> NoLookalikes(j.s, Lookup(j.oldObls, j.os[k].number))
    ensures Changes(j, t) == []
  {
    SelfPairs(j, t.residual);
    hide PairOf, RowAt, Trusted, NoLookalikes, Compares, Residual, Fits, MatchedPairs, Proper, CreatedIndices,
      RemovedIndices;
    forall k: nat | k < |t.compares| ensures RowAt(j, t.residual, k, t.compares[k]).None? {
      assert ComparesAt(j, t.residual, k, t.compares[k]);
      SelfRow(j, t.residual, k, t.compares[k]);
      SelfComparesSilent(j.s, Lookup(j.oldObls, j.os[k].number), t.compares[k]);
    }
    NoRows(j, t.residual, t.compares);
    hide ModifiedRows, Suppressed, ComparesAt;
    assert |Changes(j, t)| == 0;
  }

  lemma SelfNoisy(j: Job, k: nat) returns (t: Trace)
    requires SelfJob(j) && Proper(j.s.Alphabet()) && k < |j.os|
    requires !NoLookalikes(j.s, Lookup(j.oldObls, j.os[k].number))
    ensures IsTrace(j, t) && Changes(j, t) != []
  {
    var a := Assignment([], [], []);
    SelfResidual(j);
    SelfPairs(j, a);
    hide *;
    var cs := SelfTrace(j, a, |MatchedPairs(j, a)|);
    t := Trace(a, cs);
    RevealingTrace(j, t);
    SelfRow(j, a, k, cs[k]);
    RevealingShows(j, a, k, cs[k]);
    SomeRow(j, a, cs, k);
    RowsShow(j, t);
  }

  lemma RevealingShows(j: Job, a: Assignment, k: nat, obl: Option<ObligationCompare>)
    requires Fits(j, a) && k < |MatchedPairs(j, a)| && k < |j.os| && Revealing(j, a, k, obl)
    requires !NoLookalikes(j.s, Lookup(j.oldObls, j.os[k].number))
    ensures Trusted(obl)
  {
    hide NoLookalikes, ComparesAt, Trusted, Lookup, Fits, MatchedPairs;
  }

  lemma RevealingTrace(j: Job, t: Trace)
    requires Residual(j, t.residual) && Fits(j, t.residual) && |t.compares| == |MatchedPairs(j, t.residual)|
    requires forall k: nat :: k < |t.compares| ==> Revealing(j, t.residual, k, t.compares[k])
    ensures IsTrace(j, t) && Shaped(j, t)
  {
    hide Residual, Fits, MatchedPairs, ComparesAt, Trusted, NoLookalikes, Lookup;
  }

  lemma RowsShow(j: Job, t: Trace)
    requires Shaped(j, t) && ModifiedRows(j, t.residual, t.compares) != []
    ensures Changes(j, t) != []
  {
    hide ModifiedRows, Fits, MatchedPairs, CreatedRows, RemovedRows, CreatedIndices, RemovedIndices, RowLeq, SortBy;
    assert |Changes(j, t)| > 0;
  }

  lemma {:induction false} SomeRow(j: Job, a: Assignment, cs: seq<Option<ObligationCompare>>, k: nat)
    requires Fits(j, a) && k < |cs| <= |MatchedPairs(j, a)| && RowAt(j, a, k, cs[k]).Some?
    ensures ModifiedRows(j, a, cs) != []
  {
    hide RowAt, Fits, MatchedPairs;
    if k < |cs| - 1 { SomeRow(j, a, cs[..|cs| - 1], k); }
  }
}
