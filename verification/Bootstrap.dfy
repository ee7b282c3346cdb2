/** The per-example decomposition behind the bootstrap interval (packages/evaluation/runner.py and
    uncertainty.py): it adds up to the run's own confusion counts. */
module Bootstrap {
  import opened Options
  import opened Sorting
  import opened Lexicographic
  import opened GreedyPairs
  import opened Increasing
  import opened EvaluationMatching
  import opened Metrics

  type Span = s: (nat, nat) | s.0 <= s.1 witness (0, 0)

  /** Half-open spans overlap when they share a position. */
  predicate SpansOverlap(a: Option<Span>, b: Option<Span>) {
    a.Some? && b.Some?
    && (if a.value.0 < b.value.0 then b.value.0 else a.value.0)
       < (if a.value.1 < b.value.1 then a.value.1 else b.value.1)
  }

  ghost predicate At(s: Option<Span>, x: nat) {
    s.Some? && s.value.0 <= x < s.value.1
  }

  lemma OverlapExactly(a: Option<Span>, b: Option<Span>)
    ensures SpansOverlap(a, b) <==> exists x :: At(a, x) && At(b, x)
  {
    if SpansOverlap(a, b) {
      var x := if a.value.0 < b.value.0 then b.value.0 else a.value.0;
      assert At(a, x) && At(b, x);
    }
  }

  datatype Example = Example(id: string, isObligation: bool, span: Option<Span>)

  datatype Prediction = Prediction(id: string, span: Option<Span>)

  datatype Observation = Observation(tp: nat, fp: nat, fn: nat)

  const ZERO := Observation(0, 0, 0)

  function Tp(): Observation -> nat { (o: Observation) => o.tp }

  function Fp(): Observation -> nat { (o: Observation) => o.fp }

  function Fn(): Observation -> nat { (o: Observation) => o.fn }

  function Total(f: Observation -> nat, obs: seq<Observation>): nat {
    if obs == [] then 0 else Total(f, obs[..|obs| - 1]) + f(obs[|obs| - 1])
  }

  function IdsOf(examples: seq<Example>): seq<string> {
    seq(|examples|, k requires 0 <= k < |examples| => examples[k].id)
  }

  /** The contributions read out by id. */
  function ReadOut(m: map<string, Observation>, ids: seq<string>): seq<Observation>
    requires forall id :: id in ids ==> id in m
  {
    seq(|ids|, k requires 0 <= k < |ids| => assert ids[k] in ids; m[ids[k]])
  }

  lemma {:induction false} TotalUpdate(f: Observation -> nat, m: map<string, Observation>, ids: seq<string>,
                                       id: string, o: Observation)
    requires Distinct(ids) && id in ids && forall x :: x in ids ==> x in m
    ensures Total(f, ReadOut(m[id := o], ids)) + f(m[id]) == Total(f, ReadOut(m, ids)) + f(o)
  {
    var n := |ids| - 1;
    var t := ids[..n];
    assert ids == t + [ids[n]];
    var a, b := ReadOut(m, ids), ReadOut(m[id := o], ids);
    assert a[..n] == ReadOut(m, t) && b[..n] == ReadOut(m[id := o], t);
    if ids[n] == id {
      assert id !in t;
      assert ReadOut(m[id := o], t) == ReadOut(m, t);
    } else {
      TotalUpdate(f, m, t, id, o);
    }
  }

  lemma {:induction false} TotalZero(f: Observation -> nat, obs: seq<Observation>)
    requires f(ZERO) == 0 && forall k :: 0 <= k < |obs| ==> obs[k] == ZERO
    ensures Total(f, obs) == 0
  {
    if obs == [] {
    } else {
      TotalZero(f, obs[..|obs| - 1]);
    }
  }

  /** Positive examples among the first `k` whose id was, or was not, matched. */
  function CountPositive(examples: seq<Example>, k: nat, matched: set<string>, hit: bool): nat
    requires k <= |examples|
  {
    if k == 0 then 0
    else CountPositive(examples, k - 1, matched, hit)
         + if examples[k - 1].isObligation && (examples[k - 1].id in matched <==> hit) then 1 else 0
  }

  predicate Attributable(examples: seq<Example>, p: Prediction) {
    exists k :: 0 <= k < |examples| && SpansOverlap(p.span, examples[k].span)
  }

  function CountAttributable(examples: seq<Example>, unmatched: seq<Prediction>, k: nat): nat
    requires k <= |unmatched|
  {
    if k == 0 then 0
    else CountAttributable(examples, unmatched, k - 1) + if Attributable(examples, unmatched[k - 1]) then 1 else 0
  }

  /** The ids of the examples among the first `k` that a prediction overlaps. */
  function Overlapping(examples: seq<Example>, p: Prediction, k: nat): (r: seq<string>)
    requires k <= |examples|
    ensures r != [] <==> exists i :: 0 <= i < k && SpansOverlap(p.span, examples[i].span)
    ensures forall id :: id in r ==> id in IdsOf(examples)
  {
    if k == 0 then []
    else if SpansOverlap(p.span, examples[k - 1].span)
    then
      assert IdsOf(examples)[k - 1] == examples[k - 1].id;
      Overlapping(examples, p, k - 1) + [examples[k - 1].id]
    else Overlapping(examples, p, k - 1)
  }

  /** Contributions keyed by the examples' ids, with the given totals. */
  ghost predicate Contributes(m: map<string, Observation>, ids: seq<string>, tp: nat, fp: nat, fn: nat) {
    && (forall id :: id in ids <==> id in m)
    && Total(Tp(), ReadOut(m, ids)) == tp && Total(Fp(), ReadOut(m, ids)) == fp && Total(Fn(), ReadOut(m, ids)) == fn
  }

  lemma ContributesUpdate(m: map<string, Observation>, ids: seq<string>, tp: nat, fp: nat, fn: nat, id: string,
                          o: Observation)
    requires Distinct(ids) && id in ids && Contributes(m, ids, tp, fp, fn)
    requires m[id].tp <= tp && m[id].fp <= fp && m[id].fn <= fn
    ensures Contributes(m[id := o], ids, tp - m[id].tp + o.tp, fp - m[id].fp + o.fp, fn - m[id].fn + o.fn)
  {
    TotalUpdate(Tp(), m, ids, id, o);
    TotalUpdate(Fp(), m, ids, id, o);
    TotalUpdate(Fn(), m, ids, id, o);
  }

  lemma {:induction false} EntryBounded(f: Observation -> nat, m: map<string, Observation>, ids: seq<string>,
                                        id: string)
    requires id in ids && forall x :: x in ids ==> x in m
    ensures f(m[id]) <= Total(f, ReadOut(m, ids))
  {
    var n := |ids| - 1;
    assert ids == ids[..n] + [ids[n]];
    assert ReadOut(m, ids)[..n] == ReadOut(m, ids[..n]);
    if ids[n] != id { EntryBounded(f, m, ids[..n], id); }
  }

  lemma ZeroContributes(m: map<string, Observation>, ids: seq<string>)
    requires forall id :: id in ids <==> id in m
    requires forall id :: id in m ==> m[id] == ZERO
    ensures Contributes(m, ids, 0, 0, 0)
  {
    TotalZero(Tp(), ReadOut(m, ids));
    TotalZero(Fp(), ReadOut(m, ids));
    TotalZero(Fn(), ReadOut(m, ids));
  }

  lemma FreshKey(examples: seq<Example>, k: nat)
    requires Distinct(IdsOf(examples)) && k < |examples|
    ensures examples[k].id in IdsOf(examples)
    ensures forall j :: 0 <= j < |examples| && j != k ==> examples[j].id != examples[k].id
  {
    assert IdsOf(examples)[k] == examples[k].id;
    forall j | 0 <= j < |examples| && j != k ensures examples[j].id != examples[k].id {
      assert IdsOf(examples)[j] != IdsOf(examples)[k];
    }
  }

  lemma ExampleIds(examples: seq<Example>)
    ensures forall j :: 0 <= j < |examples| ==> examples[j].id in IdsOf(examples)
  {
    forall j | 0 <= j < |examples| ensures examples[j].id in IdsOf(examples) {
      assert IdsOf(examples)[j] == examples[j].id;
    }
  }

  /** What an example contributes by itself. */
  function Own(e: Example, matched: set<string>): Observation {
    if !e.isObligation then ZERO else if e.id in matched then ZERO.(tp := 1) else ZERO.(fn := 1)
  }

  /** The first `k` examples have made their own contributions, the others none yet. */
  ghost predicate OwnUpTo(m: map<string, Observation>, examples: seq<Example>, matched: set<string>, k: nat) {
    forall j :: 0 <= j < |examples| ==>
      examples[j].id in m && m[examples[j].id] == if j < k then Own(examples[j], matched) else ZERO
  }

  lemma OwnStep(m: map<string, Observation>, examples: seq<Example>, matched: set<string>, k: nat)
    requires Distinct(IdsOf(examples)) && k < |examples| && OwnUpTo(m, examples, matched, k)
    ensures examples[k].id in IdsOf(examples) && examples[k].id in m && m[examples[k].id] == ZERO
    ensures OwnUpTo(m[examples[k].id := Own(examples[k], matched)], examples, matched, k + 1)
  {
    FreshKey(examples, k);
    hide Own, IdsOf, Distinct;
  }

  /** The first `k` examples are counted: each made its own contribution, with these totals. */
  ghost predicate CountedUpTo(m: map<string, Observation>, examples: seq<Example>, matched: set<string>,
                              ids: seq<string>, k: nat)
    requires k <= |examples|
  {
    && Contributes(m, ids, CountPositive(examples, k, matched, true), 0, CountPositive(examples, k, matched, false))
    && OwnUpTo(m, examples, matched, k)
  }

  /** Each positive example contributes its true positive or false negative. */
  method CountExamples(examples: seq<Example>, matched: set<string>, ghost ids: seq<string>)
    returns (contributions: map<string, Observation>)
    requires Distinct(IdsOf(examples)) && Distinct(ids) && forall id :: id in ids <==> id in IdsOf(examples)
    ensures CountedUpTo(contributions, examples, matched, ids, |examples|)
  {
    contributions := map id | id in IdsOf(examples) :: ZERO;
    NoneCounted(contributions, examples, matched, ids);
    hide CountedUpTo, IdsOf, Distinct;
    for k := 0 to |examples|
      invariant CountedUpTo(contributions, examples, matched, ids, k)
    {
      var key := examples[k].id;
      CountedStep(contributions, examples, matched, ids, k);
      if !examples[k].isObligation {
        assert contributions == contributions[key := ZERO];
        continue;
      }
      var observation := if key in matched then ZERO.(tp := 1) else ZERO.(fn := 1);
      contributions := contributions[key := observation];
    }
  }

  lemma NoneCounted(m: map<string, Observation>, examples: seq<Example>, matched: set<string>, ids: seq<string>)
    requires forall id :: id in ids <==> id in IdsOf(examples)
    requires forall id :: id in IdsOf(examples) <==> id in m
    requires forall id :: id in m ==> m[id] == ZERO
    ensures CountedUpTo(m, examples, matched, ids, 0)
  {
    ZeroContributes(m, ids);
    ExampleIds(examples);
    hide Contributes, IdsOf;
  }

  lemma CountedStep(m: map<string, Observation>, examples: seq<Example>, matched: set<string>, ids: seq<string>, k: nat)
    requires Distinct(IdsOf(examples)) && Distinct(ids) && forall id :: id in ids <==> id in IdsOf(examples)
    requires k < |examples| && CountedUpTo(m, examples, matched, ids, k)
    ensures examples[k].id in m && m[examples[k].id] == ZERO
    ensures CountedUpTo(m[examples[k].id := Own(examples[k], matched)], examples, matched, ids, k + 1)
  {
    OwnStep(m, examples, matched, k);
    ContributesUpdate(m, ids, CountPositive(examples, k, matched, true), 0, CountPositive(examples, k, matched, false),
                      examples[k].id, Own(examples[k], matched));
    hide Contributes, Distinct, OwnUpTo, IdsOf;
  }

  lemma Charge(m: map<string, Observation>, ids: seq<string>, tp: nat, fp: nat, fn: nat, id: string)
    requires Distinct(ids) && id in ids && Contributes(m, ids, tp, fp, fn)
    ensures id in m && Contributes(m[id := m[id].(fp := m[id].fp + 1)], ids, tp, fp + 1, fn)
  {
    EntryBounded(Tp(), m, ids, id);
    EntryBounded(Fp(), m, ids, id);
    EntryBounded(Fn(), m, ids, id);
    ContributesUpdate(m, ids, tp, fp, fn, id, m[id].(fp := m[id].fp + 1));
  }

  /** The ids a prediction may be charged to, smallest first. */
  function Owners(examples: seq<Example>, p: Prediction): (r: seq<string>)
    ensures r != [] <==> Attributable(examples, p)
    ensures forall id :: id in r ==> id in IdsOf(examples)
  {
    var raw := Overlapping(examples, p, |examples|);
    assert |SortBy(StringLeq, raw)| == |raw|;
    SortBy(StringLeq, raw)
  }

  /** The least id among the examples a prediction overlaps is `id`. */
  ghost predicate OwnedBy(examples: seq<Example>, p: Prediction, id: string) {
    && (exists i :: 0 <= i < |examples| && SpansOverlap(p.span, examples[i].span) && examples[i].id == id)
    && (forall i :: 0 <= i < |examples| && SpansOverlap(p.span, examples[i].span) ==> StringLeq(id, examples[i].id))
  }

  /** How many of the first `k` unmatched predictions are owned by `id`. */
  ghost function Charges(examples: seq<Example>, unmatched: seq<Prediction>, id: string, k: nat): nat
    requires k <= |unmatched|
  {
    if k == 0 then 0
    else Charges(examples, unmatched, id, k - 1) + if OwnedBy(examples, unmatched[k - 1], id) then 1 else 0
  }

  lemma {:induction false} OverlappingMembers(examples: seq<Example>, p: Prediction, k: nat, id: string)
    requires k <= |examples|
    ensures id in Overlapping(examples, p, k) <==>
            exists i :: 0 <= i < k && SpansOverlap(p.span, examples[i].span) && examples[i].id == id
  {
    hide SpansOverlap;
    if k == 0 {
    } else {
      OverlappingMembers(examples, p, k - 1, id);
    }
  }

  /** The first id in sorted order owns the prediction, and no other id does. */
  lemma OwnerIsFirst(examples: seq<Example>, p: Prediction, id: string)
    ensures OwnedBy(examples, p, id) <==> Owners(examples, p) != [] && Owners(examples, p)[0] == id
  {
    var raw, sorted := Overlapping(examples, p, |examples|), Owners(examples, p);
    IdOrder();
    SortBySorted(StringLeq, raw);
    assert forall x :: x in sorted <==> x in raw;
    hide StringLeq, SpansOverlap, Overlapping, Owners;
    if sorted != [] {
      assert sorted[0] in raw;
      OverlappingMembers(examples, p, |examples|, sorted[0]);
      forall i | 0 <= i < |examples| && SpansOverlap(p.span, examples[i].span)
        ensures StringLeq(sorted[0], examples[i].id)
      {
        OverlappingMembers(examples, p, |examples|, examples[i].id);
        var k :| 0 <= k < |sorted| && sorted[k] == examples[i].id;
        assert k == 0 || StringLeq(sorted[0], sorted[k]);
      }
      assert OwnedBy(examples, p, sorted[0]);
    }
    if OwnedBy(examples, p, id) {
      OverlappingMembers(examples, p, |examples|, id);
      assert id in sorted;
    }
  }

  /** Ids are totally ordered. */
  lemma IdOrder()
    ensures TotalPreorder(StringLeq)
    ensures forall a, b :: StringLeq(a, b) && StringLeq(b, a) ==> a == b
    ensures forall a :: StringLeq(a, a)
  {
    StringOrder();
    hide StringLess;
  }

  /** Each unmatched prediction is charged to the smallest id it overlaps. */
  method ChargeUnmatched(examples: seq<Example>, unmatched: seq<Prediction>, m: map<string, Observation>,
                         ghost ids: seq<string>, ghost tp: nat, ghost fn: nat)
    returns (contributions: map<string, Observation>)
    requires Distinct(ids) && forall id :: id in ids <==> id in IdsOf(examples)
    requires Contributes(m, ids, tp, 0, fn)
    ensures Contributes(contributions, ids, tp, CountAttributable(examples, unmatched, |unmatched|), fn)
    ensures contributions.Keys == m.Keys
    ensures forall id :: id in m ==>
              contributions[id] == m[id].(fp := m[id].fp + Charges(examples, unmatched, id, |unmatched|))
  {
    hide Contributes, Attributable, Owners, Distinct, IdsOf, OwnedBy;
    contributions := m;
    for k := 0 to |unmatched|
      invariant Contributes(contributions, ids, tp, CountAttributable(examples, unmatched, k), fn)
      invariant contributions.Keys == m.Keys
      invariant forall id :: id in m ==>
                  contributions[id] == m[id].(fp := m[id].fp + Charges(examples, unmatched, id, k))
    {
      var candidates := Owners(examples, unmatched[k]);
      forall id | id in m
        ensures OwnedBy(examples, unmatched[k], id) <==> candidates != [] && candidates[0] == id
      {
        OwnerIsFirst(examples, unmatched[k], id);
      }
      if candidates != [] {
        var owner := candidates[0];
        assert owner in candidates && owner in ids;
        Charge(contributions, ids, tp, CountAttributable(examples, unmatched, k), fn, owner);
        var o := contributions[owner];
        contributions := contributions[owner := o.(fp := o.fp + 1)];
      }
    }
  }

  /** What an example contributes: its own true positive or false negative, and a false positive for every
      unmatched prediction that its id owns. */
  ghost function Allocation(examples: seq<Example>, matched: set<string>, unmatched: seq<Prediction>, e: Example)
    : Observation
  {
    Own(e, matched).(fp := Charges(examples, unmatched, e.id, |unmatched|))
  }

  function SortedIds(examples: seq<Example>): (ids: seq<string>)
    ensures |ids| == |examples| && multiset(ids) == multiset(IdsOf(examples))
  {
    SortBy(StringLeq, IdsOf(examples))
  }

  /** Allocates the run's confusion to its examples, in the order of their ids. */
  method BootstrapObservations(examples: seq<Example>, matched: set<string>, unmatched: seq<Prediction>)
    returns (observations: seq<Observation>)
    requires Distinct(IdsOf(examples))
    ensures |observations| == |examples|
    ensures forall k, i :: 0 <= k < |examples| && 0 <= i < |examples| && SortedIds(examples)[k] == examples[i].id ==>
              observations[k] == Allocation(examples, matched, unmatched, examples[i])
    ensures Total(Tp(), observations) == CountPositive(examples, |examples|, matched, true)
    ensures Total(Fn(), observations) == CountPositive(examples, |examples|, matched, false)
    ensures Total(Fp(), observations) == CountAttributable(examples, unmatched, |unmatched|)
  {
    hide SortBy, StringLeq, CountPositive, CountAttributable, Total, IdsOf, Charges, Own;
    var ids := SortBy(StringLeq, IdsOf(examples));
    assert ids == SortedIds(examples);
    SortByDistinct(StringLeq, IdsOf(examples));
    assert |IdsOf(examples)| == |examples| by { IdsLength(examples); }
    var own := CountExamples(examples, matched, ids);
    assert Contributes(own, ids, CountPositive(examples, |examples|, matched, true), 0,
                       CountPositive(examples, |examples|, matched, false));
    var contributions := ChargeUnmatched(examples, unmatched, own, ids,
                                         CountPositive(examples, |examples|, matched, true),
                                         CountPositive(examples, |examples|, matched, false));
    observations := ReadOut(contributions, ids);
    OwnHasNoCharge();
    forall k, i | 0 <= k < |examples| && 0 <= i < |examples| && ids[k] == examples[i].id
      ensures observations[k] == Allocation(examples, matched, unmatched, examples[i])
    {
      assert examples[i].id in own;
    }
  }

  lemma OwnHasNoCharge()
    ensures forall e, matched :: Own(e, matched).fp == 0
  {
  }

  lemma IdsLength(examples: seq<Example>)
    ensures |IdsOf(examples)| == |examples|
  {
  }

  // --- the whole score ---

  /** The gold items are the positive examples, in order. */
  function Positives(examples: seq<Example>): (r: seq<Example>)
    ensures forall e :: e in r <==> e in examples && e.isObligation
  {
    if examples == [] then []
    else
      var t, e := Positives(examples[..|examples| - 1]), examples[|examples| - 1];
      assert examples == examples[..|examples| - 1] + [e];
      if e.isObligation then t + [e] else t
  }

  /** Predictions that overlap some example. */
  function ScoredPredictions(examples: seq<Example>, predictions: seq<Prediction>): (r: seq<Prediction>)
    ensures forall k :: 0 <= k < |r| ==> Attributable(examples, r[k])
  {
    if predictions == [] then []
    else
      var t, p := ScoredPredictions(examples, predictions[..|predictions| - 1]), predictions[|predictions| - 1];
      if Attributable(examples, p) then t + [p] else t
  }

  /** The ids of the gold items at the given indices. */
  function MatchedIds(gold: seq<Example>, indices: set<nat>): set<string> {
    set g | g in indices && g < |gold| :: gold[g].id
  }

  function CountIn(n: nat, indices: set<nat>): nat {
    if n == 0 then 0 else CountIn(n - 1, indices) + if n - 1 in indices then 1 else 0
  }

  lemma {:induction false} CountInOthers(n: nat, indices: set<nat>)
    ensures CountIn(n, indices) + |Others(n, indices)| == n
  {
    if n == 0 {
    } else {
      CountInOthers(n - 1, indices);
    }
  }

  /** With distinct ids, as many positive examples are matched as gold indices, and the rest are missed. */
  lemma {:induction false} PositiveCounts(examples: seq<Example>, k: nat, indices: set<nat>, matched: set<string>)
    requires k <= |examples|
    requires forall g: nat :: g < |Positives(examples)| ==> (g in indices <==> Positives(examples)[g].id in matched)
    ensures |Positives(examples[..k])| <= |Positives(examples)|
    ensures CountPositive(examples, k, matched, true) == CountIn(|Positives(examples[..k])|, indices)
    ensures CountPositive(examples, k, matched, false) == |Others(|Positives(examples[..k])|, indices)|
  {
    hide Positives, CountPositive, CountIn, Others;
    PositivesPrefix(examples, k);
    if k == 0 {
      NoPositives(examples, indices, matched);
    } else {
      var t, e := Positives(examples[..k - 1]), examples[k - 1];
      PositiveCounts(examples, k - 1, indices, matched);
      PositivesStep(examples, k);
      if e.isObligation {
        assert Positives(examples)[|t|] == Positives(examples[..k])[|t|] == e;
      }
      CountsStep(examples, k, indices, matched, |t|);
    }
  }

  lemma NoPositives(examples: seq<Example>, indices: set<nat>, matched: set<string>)
    ensures examples[..0] == [] && Positives([]) == []
    ensures CountPositive(examples, 0, matched, true) == CountIn(0, indices) == 0
    ensures CountPositive(examples, 0, matched, false) == |Others(0, indices)| == 0
  {
  }

  lemma PositivesStep(examples: seq<Example>, k: nat)
    requires 0 < k <= |examples|
    ensures var t, e := Positives(examples[..k - 1]), examples[k - 1];
            Positives(examples[..k]) == if e.isObligation then t + [e] else t
  {
    assert examples[..k][..k - 1] == examples[..k - 1];
  }

  /** The `n`-th gold item is matched exactly when its index is hit. */
  lemma CountsStep(examples: seq<Example>, k: nat, indices: set<nat>, matched: set<string>, n: nat)
    requires 0 < k <= |examples|
    requires examples[k - 1].isObligation ==> (n in indices <==> examples[k - 1].id in matched)
    requires CountPositive(examples, k - 1, matched, true) == CountIn(n, indices)
    requires CountPositive(examples, k - 1, matched, false) == |Others(n, indices)|
    ensures var n' := if examples[k - 1].isObligation then n + 1 else n;
            && CountPositive(examples, k, matched, true) == CountIn(n', indices)
            && CountPositive(examples, k, matched, false) == |Others(n', indices)|
  {
    OthersCountStep(n, indices);
    hide Others;
  }

  lemma {:induction false} PositivesPrefix(examples: seq<Example>, k: nat)
    requires k <= |examples|
    ensures Positives(examples[..k]) <= Positives(examples)
  {
    if k < |examples| {
      PositivesPrefix(examples[..|examples| - 1], k);
      assert examples[..|examples| - 1][..k] == examples[..k];
    } else {
      assert examples[..k] == examples;
    }
  }

  lemma {:induction false} PositivesDistinct(examples: seq<Example>)
    requires Distinct(IdsOf(examples))
    ensures forall i, j :: 0 <= i < j < |Positives(examples)| ==> Positives(examples)[i].id != Positives(examples)[j].id
  {
    if examples == [] {
    } else {
      var t, e := examples[..|examples| - 1], examples[|examples| - 1];
      assert IdsOf(t) == IdsOf(examples)[..|examples| - 1];
      PositivesDistinct(t);
      forall i | 0 <= i < |Positives(t)| ensures Positives(t)[i].id != e.id {
        assert Positives(t)[i] in t;
        var j :| 0 <= j < |t| && t[j] == Positives(t)[i];
        assert IdsOf(examples)[j] != IdsOf(examples)[|examples| - 1];
      }
    }
  }

  /** The unmatched predictions, by index. */
  function Select(predictions: seq<Prediction>, indices: seq<nat>): seq<Prediction>
    requires forall i :: i in indices ==> i < |predictions|
  {
    seq(|indices|, k requires 0 <= k < |indices| => assert indices[k] in indices; predictions[indices[k]])
  }

  lemma {:induction false} AllAttributable(examples: seq<Example>, unmatched: seq<Prediction>, k: nat)
    requires k <= |unmatched| && forall i :: 0 <= i < |unmatched| ==> Attributable(examples, unmatched[i])
    ensures CountAttributable(examples, unmatched, k) == k
  {
    if k == 0 {
    } else {
      AllAttributable(examples, unmatched, k - 1);
    }
  }

  method BootstrapEstimate(observations: seq<Observation>) returns (estimate: real)
    ensures estimate == F1(Total(Tp(), observations), Total(Fp(), observations), Total(Fn(), observations))
  {
    var tp, fp, fn := 0, 0, 0;
    for k := 0 to |observations|
      invariant tp == Total(Tp(), observations[..k])
      invariant fp == Total(Fp(), observations[..k])
      invariant fn == Total(Fn(), observations[..k])
    {
      assert observations[..k + 1][..k] == observations[..k];
      tp, fp, fn := tp + observations[k].tp, fp + observations[k].fp, fn + observations[k].fn;
    }
    assert observations[..|observations|] == observations;
    estimate := MetricsFromConfusion(tp, fp, fn).value.f1;
  }

  /** The confusion counts each matching mode defines. */
  ghost predicate Confusion(predictions: seq<Prediction>, gold: seq<Example>, gate: Gate<Prediction, Example>,
                            coverage: bool, tp: nat, fp: nat, fn: nat)
  {
    if coverage then
      exists r :: Covers(predictions, gold, gate, r)
                  && tp == |r.covered| && fp == |r.unmatchedPredictions| && fn == |r.uncovered|
    else
      var pairs := Matched(predictions, gold, gate);
      tp == |pairs| && fp == |Others(|predictions|, Lefts(pairs))| && fn == |Others(|gold|, Rights(pairs))|
  }

  /** The confusion of either matching mode: gold indices hit, prediction indices left over. */
  method Match(predictions: seq<Prediction>, gold: seq<Example>, gate: Gate<Prediction, Example>, coverage: bool)
    returns (tp: nat, hit: set<nat>, missed: seq<nat>, leftOver: seq<nat>)
    ensures tp + |missed| == |gold| && missed == Others(|gold|, hit)
    ensures Confusion(predictions, gold, gate, coverage, tp, |leftOver|, |missed|)
    ensures forall i :: i in leftOver ==> i < |predictions|
    ensures forall g :: g in hit ==> g < |gold|
  {
    hide Covers, Matched, Ranking, Eligible, OneToOne, SortBy;
    if coverage {
      var r := MatchObligationsCoverage(predictions, gold, gate);
      hit := set g | g in r.covered;
      tp, missed, leftOver := |r.covered|, r.uncovered, r.unmatchedPredictions;
      CoveredComplement(predictions, gold, gate, r);
    } else {
      var r := MatchObligations(predictions, gold, gate);
      var pairs := Matched(predictions, gold, gate);
      hit := Rights(pairs);
      tp, missed, leftOver := |r.pairs|, r.unmatchedGold, r.unmatchedPredictions;
      MatchedCounts(predictions, gold, gate);
    }
  }

  lemma MatchedCounts(predictions: seq<Prediction>, gold: seq<Example>, gate: Gate<Prediction, Example>)
    ensures var pairs := Matched(predictions, gold, gate);
            && |pairs| + |Others(|gold|, Rights(pairs))| == |gold|
            && forall g: nat :: g in Rights(pairs) ==> g < |gold|
  {
    var pairs := Matched(predictions, gold, gate);
    RankingEligible(predictions, gold, gate);
    GreedyOneToOne(EdgesOf(Ranking(predictions, gold, gate)));
    SideCounts(pairs);
    assert forall k :: 0 <= k < |pairs| ==> pairs[k] in pairs;
    RightsBelow(pairs, |gold|);
    OthersCount(|gold|, Rights(pairs));
  }

  lemma CoveredComplement(predictions: seq<Prediction>, gold: seq<Example>, gate: Gate<Prediction, Example>,
                          r: CoverageOutcome)
    requires Covers(predictions, gold, gate, r)
    ensures r.uncovered == Others(|gold|, set g | g in r.covered)
    ensures |r.covered| + |r.uncovered| == |gold| && r.unmatchedPredictions == Others(|predictions|, r.absorbed)
    ensures forall g :: g in r.covered ==> g < |gold|
  {
    GoldBound(predictions, gold, gate);
    OthersIs(|gold|, (set g | g in r.covered), r.uncovered);
  }

  /** The headline F1 of a run and the point estimate its bootstrap reports.  `full` says that every
      example is covered by the corpus, the first condition for coverage matching. */
  method ScoreRun(examples: seq<Example>, predictions: seq<Prediction>, gate: Gate<Prediction, Example>, full: bool)
    returns (f1: real, estimate: Option<real>)
    requires Distinct(IdsOf(examples))
    ensures estimate == if examples == [] then None else Some(f1)
    ensures var scored, gold := ScoredPredictions(examples, predictions), Positives(examples);
            exists tp: nat, fp: nat, fn: nat ::
              Confusion(scored, gold, gate, full && |predictions| > 3 * |gold| && |gold| > 0, tp, fp, fn)
              && f1 == F1(tp, fp, fn)
  {
    var scored := ScoredPredictions(examples, predictions);
    var gold := Positives(examples);
    var coverage := full && |predictions| > 3 * |gold| && |gold| > 0;
    var tp, hit, missed, leftOver := Match(scored, gold, gate, coverage);
    f1 := MetricsFromConfusion(tp, |leftOver|, |missed|).value.f1;
    assert f1 == F1(tp, |leftOver|, |missed|);
    var observations := BootstrapObservations(examples, MatchedIds(gold, hit), Select(scored, leftOver));
    if observations == [] {
      estimate := None;
      return;
    }
    DecompositionConserves(examples, scored, hit, leftOver);
    CountInOthers(|gold|, hit);
    var e := BootstrapEstimate(observations);
    estimate := Some(e);
  }

  /** Summed over the examples, the decomposition is the run's confusion: because every scored
      prediction overlaps some example, none of its false positives is lost. */
  lemma DecompositionConserves(examples: seq<Example>, scored: seq<Prediction>, hit: set<nat>, leftOver: seq<nat>)
    requires Distinct(IdsOf(examples))
    requires forall k :: 0 <= k < |scored| ==> Attributable(examples, scored[k])
    requires forall i :: i in leftOver ==> i < |scored|
    requires forall g :: g in hit ==> g < |Positives(examples)|
    ensures var matched := MatchedIds(Positives(examples), hit);
            && CountPositive(examples, |examples|, matched, true) == CountIn(|Positives(examples)|, hit)
            && CountPositive(examples, |examples|, matched, false) == |Others(|Positives(examples)|, hit)|
            && CountAttributable(examples, Select(scored, leftOver), |leftOver|) == |leftOver|
  {
    var gold := Positives(examples);
    var matched := MatchedIds(gold, hit);
    forall g: nat | g < |gold| ensures g in hit <==> gold[g].id in matched {
      if gold[g].id in matched {
        var h :| h in hit && h < |gold| && gold[h].id == gold[g].id;
        SameGold(examples, g, h);
      }
    }
    assert examples[..|examples|] == examples;
    PositiveCounts(examples, |examples|, hit, matched);
    var unmatched := Select(scored, leftOver);
    forall k | 0 <= k < |unmatched| ensures Attributable(examples, unmatched[k]) {
      assert leftOver[k] in leftOver;
    }
    AllAttributable(examples, unmatched, |unmatched|);
  }

  lemma SameGold(examples: seq<Example>, g: nat, h: nat)
    requires Distinct(IdsOf(examples)) && g < |Positives(examples)| && h < |Positives(examples)|
    requires Positives(examples)[g].id == Positives(examples)[h].id
    ensures g == h
  {
    PositivesDistinct(examples);
  }
}
