/** One-to-one selection from a ranked list of candidate pairs: take every candidate that shares
    no side with one already taken.  The diff baseline and the evaluation matcher both run this
    loop; what it guarantees depends only on the order of the candidates. */
module GreedyPairs {

  datatype Edge = Edge(left: nat, right: nat)

  predicate Touches(e: Edge, f: Edge) {
    e.left == f.left || e.right == f.right
  }

  predicate Blocked(chosen: seq<Edge>, e: Edge) {
    exists k :: 0 <= k < |chosen| && Touches(chosen[k], e)
  }

  ghost predicate OneToOne(es: seq<Edge>) {
    forall i, j :: 0 <= i < j < |es| ==> !Touches(es[i], es[j])
  }

  function Lefts(es: seq<Edge>): set<nat> {
    if es == [] then {} else Lefts(es[..|es| - 1]) + {es[|es| - 1].left}
  }

  function Rights(es: seq<Edge>): set<nat> {
    if es == [] then {} else Rights(es[..|es| - 1]) + {es[|es| - 1].right}
  }

  /** Testing the used sides, as the loops do, is testing `Blocked`. */
  lemma {:induction false} BlockedBySides(chosen: seq<Edge>, e: Edge)
    ensures Blocked(chosen, e) <==> e.left in Lefts(chosen) || e.right in Rights(chosen)
  {
    if chosen == [] {
    } else {
      var t := chosen[..|chosen| - 1];
      BlockedBySides(t, e);
      if Blocked(t, e) {
        var k :| 0 <= k < |t| && Touches(t[k], e);
        assert Touches(chosen[k], e);
      }
      if Blocked(chosen, e) {
        var k :| 0 <= k < |chosen| && Touches(chosen[k], e);
        assert k < |t| ==> Touches(t[k], e);
      }
    }
  }

  lemma {:induction false} SideCounts(es: seq<Edge>)
    requires OneToOne(es)
    ensures |Lefts(es)| == |es| && |Rights(es)| == |es|
  {
    if es == [] {
    } else {
      var t, e := es[..|es| - 1], es[|es| - 1];
      SideCounts(t);
      BlockedBySides(t, e);
      assert !Blocked(t, e);
    }
  }

  function Greedy(cands: seq<Edge>): (r: seq<Edge>)
    ensures forall e :: e in r ==> e in cands
  {
    if cands == [] then []
    else
      var g, e := Greedy(cands[..|cands| - 1]), cands[|cands| - 1];
      if Blocked(g, e) then g else g + [e]
  }

  lemma {:induction false} GreedyOneToOne(cands: seq<Edge>)
    ensures OneToOne(Greedy(cands))
  {
    if cands == [] {
    } else {
      GreedyOneToOne(cands[..|cands| - 1]);
    }
  }

  /** A stable choice: no two chosen pairs share a side, and every rejected candidate shares a
      side with a chosen one ranked before it. */
  ghost predicate Stable(cands: seq<Edge>, chosen: set<Edge>) {
    && (forall e :: e in chosen ==> e in cands)
    && (forall e, f :: e in chosen && f in chosen && e != f ==> !Touches(e, f))
    && (forall k :: 0 <= k < |cands| && cands[k] !in chosen ==> BlockedEarlier(cands, chosen, k))
  }

  ghost predicate BlockedEarlier(cands: seq<Edge>, chosen: set<Edge>, k: nat)
    requires k < |cands|
  {
    exists j :: 0 <= j < k && cands[j] in chosen && Touches(cands[j], cands[k])
  }

  lemma GreedyStable(cands: seq<Edge>)
    ensures Stable(cands, set e | e in Greedy(cands))
  {
    var chosen := set e | e in Greedy(cands);
    GreedyOneToOne(cands);
    forall k | 0 <= k < |cands| && cands[k] !in chosen
      ensures BlockedEarlier(cands, chosen, k)
    {
      GreedyBlocksEarlier(cands, k);
    }
  }

  lemma {:induction false} GreedyBlocksEarlier(cands: seq<Edge>, k: nat)
    requires k < |cands| && cands[k] !in Greedy(cands)
    ensures exists j :: 0 <= j < k && cands[j] in Greedy(cands) && Touches(cands[j], cands[k])
  {
    var last := |cands| - 1;
    var t := cands[..last];
    if k < last {
      GreedyBlocksEarlier(t, k);
      var j :| 0 <= j < k && t[j] in Greedy(t) && Touches(t[j], t[k]);
      assert cands[j] in Greedy(cands) && Touches(cands[j], cands[k]);
    } else {
      var g := Greedy(t);
      assert Blocked(g, cands[last]);
      var i :| 0 <= i < |g| && Touches(g[i], cands[last]);
      assert g[i] in t;
      var j :| 0 <= j < last && t[j] == g[i];
      assert cands[j] in Greedy(cands) && Touches(cands[j], cands[k]);
    }
  }

  /** There is only one stable choice, whatever procedure produced it. */
  lemma StableUnique(cands: seq<Edge>, a: set<Edge>, b: set<Edge>)
    requires Stable(cands, a) && Stable(cands, b)
    ensures a == b
  {
    forall k | 0 <= k < |cands|
      ensures cands[k] in a <==> cands[k] in b
    {
      StableAgree(cands, a, b, k);
    }
    forall e | e in a ensures e in b {
      var k :| 0 <= k < |cands| && cands[k] == e;
    }
    forall e | e in b ensures e in a {
      var k :| 0 <= k < |cands| && cands[k] == e;
    }
  }

  lemma {:induction false} StableAgree(cands: seq<Edge>, a: set<Edge>, b: set<Edge>, k: nat)
    requires Stable(cands, a) && Stable(cands, b) && k < |cands|
    ensures cands[k] in a <==> cands[k] in b
    decreases k
  {
    if cands[k] in a && cands[k] !in b {
      assert BlockedEarlier(cands, b, k);
      var j :| 0 <= j < k && cands[j] in b && Touches(cands[j], cands[k]);
      StableAgree(cands, a, b, j);
    }
    if cands[k] in b && cands[k] !in a {
      assert BlockedEarlier(cands, a, k);
      var j :| 0 <= j < k && cands[j] in a && Touches(cands[j], cands[k]);
      StableAgree(cands, a, b, j);
    }
  }

  // --- half of any other one-to-one choice ---

  ghost function Weight(w: Edge -> real, es: seq<Edge>): real {
    if es == [] then 0.0 else Weight(w, es[..|es| - 1]) + w(es[|es| - 1])
  }

  /** `es` without the pairs that share a side with `e`. */
  ghost function Without(es: seq<Edge>, e: Edge): (r: seq<Edge>)
    ensures forall f :: f in r <==> f in es && !Touches(e, f)
  {
    if es == [] then []
    else Without(es[..|es| - 1], e) + (if Touches(e, es[|es| - 1]) then [] else [es[|es| - 1]])
  }

  lemma {:induction false} WithoutOneToOne(es: seq<Edge>, e: Edge)
    requires OneToOne(es)
    ensures OneToOne(Without(es, e))
  {
    if es == [] {
    } else {
      var t, last := es[..|es| - 1], es[|es| - 1];
      WithoutOneToOne(t, e);
      forall k | 0 <= k < |Without(t, e)| ensures !Touches(Without(t, e)[k], last) {
        assert Without(t, e)[k] in t;
      }
    }
  }

  lemma WeightSnoc(w: Edge -> real, es: seq<Edge>, e: Edge)
    ensures Weight(w, es + [e]) == Weight(w, es) + w(e)
  {
    assert (es + [e])[..|es|] == es;
  }

  /** Removing one pair's neighbours costs at most one pair on each side. */
  lemma {:induction false} WithoutWeight(w: Edge -> real, es: seq<Edge>, e: Edge, bound: real)
    requires OneToOne(es) && bound >= 0.0
    requires forall k :: 0 <= k < |es| && Touches(e, es[k]) ==> w(es[k]) <= bound
    ensures Weight(w, es) <= Weight(w, Without(es, e))
                             + (if e.left in Lefts(es) then bound else 0.0)
                             + (if e.right in Rights(es) then bound else 0.0)
  {
    if es == [] {
    } else {
      var t, last := es[..|es| - 1], es[|es| - 1];
      WithoutWeight(w, t, e, bound);
      BlockedBySides(t, last);
      assert !Blocked(t, last);
      WeightSnoc(w, Without(t, e), last);
      assert Weight(w, es) == Weight(w, t) + w(last);
      assert Lefts(es) == Lefts(t) + {last.left} && Rights(es) == Rights(t) + {last.right};
      assert Touches(e, last) ==> w(last) <= bound;
      assert Without(es, e) == if Touches(e, last) then Without(t, e) else Without(t, e) + [last];
    }
  }

  lemma {:induction false} WeightFront(w: Edge -> real, es: seq<Edge>)
    requires es != []
    ensures Weight(w, es) == w(es[0]) + Weight(w, es[1..])
  {
    if |es| > 1 {
      WeightFront(w, es[..|es| - 1]);
      assert es[1..][..|es| - 2] == es[..|es| - 1][1..];
    } else {
      assert es[..0] == [] && es[1..] == [];
    }
  }

  ghost predicate Descending(w: Edge -> real, es: seq<Edge>) {
    forall i, j :: 0 <= i < j < |es| ==> w(es[i]) >= w(es[j])
  }

  /** `f` shares a side with a chosen pair at least as heavy. */
  ghost predicate Outweighed(w: Edge -> real, chosen: seq<Edge>, f: Edge) {
    exists k :: 0 <= k < |chosen| && Touches(chosen[k], f) && w(chosen[k]) >= w(f)
  }

  lemma OutweighedRest(w: Edge -> real, chosen: seq<Edge>, f: Edge)
    requires chosen != [] && Outweighed(w, chosen, f)
    requires Descending(w, chosen)
    ensures if Touches(chosen[0], f) then w(f) <= w(chosen[0]) else Outweighed(w, chosen[1..], f)
  {
    var k :| 0 <= k < |chosen| && Touches(chosen[k], f) && w(chosen[k]) >= w(f);
    if k > 0 {
      assert chosen[1..][k - 1] == chosen[k];
    }
  }

  /** If every pair of `other` is outweighed by a chosen one, the choice weighs at least half as
      much as `other`. */
  lemma {:induction false} HalfWeight(w: Edge -> real, chosen: seq<Edge>, other: seq<Edge>)
    requires OneToOne(other)
    requires Descending(w, chosen) && forall k :: 0 <= k < |chosen| ==> w(chosen[k]) >= 0.0
    requires forall f :: f in other ==> Outweighed(w, chosen, f)
    ensures Weight(w, other) <= 2.0 * Weight(w, chosen)
  {
    if chosen == [] {
      assert other != [] ==> Outweighed(w, chosen, other[0]);
    } else {
      var e, rest := chosen[0], Without(other, chosen[0]);
      WithoutOneToOne(other, e);
      forall f | f in other
        ensures if Touches(e, f) then w(f) <= w(e) else Outweighed(w, chosen[1..], f)
      {
        OutweighedRest(w, chosen, f);
      }
      HalfWeight(w, chosen[1..], rest);
      WithoutWeight(w, other, e, w(e));
      WeightFront(w, chosen);
    }
  }

  lemma {:induction false} GreedyDescending(w: Edge -> real, cands: seq<Edge>)
    requires Descending(w, cands)
    ensures Descending(w, Greedy(cands))
  {
    if cands == [] {
    } else {
      var t := cands[..|cands| - 1];
      GreedyDescending(w, t);
      forall k | 0 <= k < |Greedy(t)| ensures w(Greedy(t)[k]) >= w(cands[|cands| - 1]) {
        assert Greedy(t)[k] in t;
      }
    }
  }

  /** The greedy choice over candidates in falling weight keeps at least half the weight of any
      one-to-one choice from the same candidates. */
  lemma GreedyHalf(w: Edge -> real, cands: seq<Edge>, other: seq<Edge>)
    requires Descending(w, cands) && forall e :: e in cands ==> w(e) >= 0.0
    requires OneToOne(other) && forall e :: e in other ==> e in cands
    ensures Weight(w, other) <= 2.0 * Weight(w, Greedy(cands))
  {
    var g := Greedy(cands);
    GreedyDescending(w, cands);
    forall f | f in other
      ensures Outweighed(w, g, f)
    {
      var k :| 0 <= k < |cands| && cands[k] == f;
      if f in g {
        var i :| 0 <= i < |g| && g[i] == f;
      } else {
        GreedyBlocksEarlier(cands, k);
        var j :| 0 <= j < k && cands[j] in g && Touches(cands[j], f);
        var i :| 0 <= i < |g| && g[i] == cands[j];
      }
    }
    assert forall k :: 0 <= k < |g| ==> g[k] in g;
    HalfWeight(w, g, other);
  }

  lemma {:induction false} UnitWeight(es: seq<Edge>)
    ensures Weight(_ => 1.0, es) == |es| as real
  {
    if es == [] {
    } else {
      UnitWeight(es[..|es| - 1]);
    }
  }
}
