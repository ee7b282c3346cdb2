/** Matching predicted to gold obligations (packages/evaluation/matching.py): the global greedy
    one-to-one matcher and the many-to-one coverage matcher. */
module EvaluationMatching {
  import opened Options
  import opened Sorting
  import opened GreedyPairs
  import opened Increasing
  import opened Permutations

  datatype Scores = Scores(obligation: real, actor: real, action: real)

  /** A prediction and a gold item are scored when they pass every alignment gate. */
  type Gate<!P, !G> = (P, G) -> Option<Scores>

  datatype Candidate = Candidate(scores: Scores, edge: Edge)

  predicate Better(a: Scores, b: Scores) {
    || a.obligation > b.obligation
    || (a.obligation == b.obligation && a.actor > b.actor)
    || (a.obligation == b.obligation && a.actor == b.actor && a.action > b.action)
  }

  /** The matcher's ranking: better scores first, then the smaller indices. */
  predicate Ranked(a: Candidate, b: Candidate) {
    || Better(a.scores, b.scores)
    || (a.scores == b.scores
        && (a.edge.left < b.edge.left || (a.edge.left == b.edge.left && a.edge.right <= b.edge.right)))
  }

  /** The candidates of prediction `p` among the first `j` gold items. */
  function RowCandidates<P, G>(predictions: seq<P>, gold: seq<G>, gate: Gate<P, G>, p: nat, j: nat): seq<Candidate>
    requires p < |predictions| && j <= |gold|
  {
    if j == 0 then []
    else
      var t := RowCandidates(predictions, gold, gate, p, j - 1);
      match gate(predictions[p], gold[j - 1])
      case None => t
      case Some(scores) => t + [Candidate(scores, Edge(p, j - 1))]
  }

  function AllCandidates<P, G>(predictions: seq<P>, gold: seq<G>, gate: Gate<P, G>, i: nat): seq<Candidate>
    requires i <= |predictions|
  {
    if i == 0 then []
    else AllCandidates(predictions, gold, gate, i - 1) + RowCandidates(predictions, gold, gate, i - 1, |gold|)
  }

  predicate Eligible<P, G>(predictions: seq<P>, gold: seq<G>, gate: Gate<P, G>, e: Edge) {
    e.left < |predictions| && e.right < |gold| && gate(predictions[e.left], gold[e.right]).Some?
  }

  function EdgesOf(cs: seq<Candidate>): seq<Edge> {
    seq(|cs|, k requires 0 <= k < |cs| => cs[k].edge)
  }

  /** The candidates in the order the matcher takes them. */
  function Ranking<P, G>(predictions: seq<P>, gold: seq<G>, gate: Gate<P, G>): seq<Candidate> {
    SortBy(Ranked, AllCandidates(predictions, gold, gate, |predictions|))
  }

  function Matched<P, G>(predictions: seq<P>, gold: seq<G>, gate: Gate<P, G>): seq<Edge> {
    Greedy(EdgesOf(Ranking(predictions, gold, gate)))
  }

  predicate ByGold(a: Edge, b: Edge) {
    a.right < b.right || (a.right == b.right && a.left <= b.left)
  }

  datatype MatchOutcome = MatchOutcome(pairs: seq<Edge>, unmatchedPredictions: seq<nat>, unmatchedGold: seq<nat>)

  method MatchObligations<P, G>(predictions: seq<P>, gold: seq<G>, gate: Gate<P, G>) returns (r: MatchOutcome)
    ensures var pairs := Matched(predictions, gold, gate);
            r == MatchOutcome(SortBy(ByGold, pairs),
                              Others(|predictions|, Lefts(pairs)), Others(|gold|, Rights(pairs)))
    ensures ByScores(predictions, gold, gate, r.pairs) && LeftOver(predictions, gold, r)
  {
    OutcomeByScores(predictions, gold, gate);
    var candidates := ListCandidates(predictions, gold, gate);
    var ranked := SortBy(Ranked, candidates);
    var usedPredictions, usedGold: set<nat> := {}, {};
    var pairs: seq<Edge> := [];
    ghost var edges := EdgesOf(ranked);
    hide Greedy, Lefts, Rights, SortBy, AllCandidates, Blocked, ByScores, LeftOver;
    GreedyNothing();
    for k := 0 to |ranked|
      invariant pairs == Greedy(edges[..k])
      invariant usedPredictions == Lefts(pairs) && usedGold == Rights(pairs)
    {
      var e := ranked[k].edge;
      GreedyNext(edges, k);
      BlockedBySides(pairs, e);
      if e.left in usedPredictions || e.right in usedGold {
        continue;
      }
      SidesSnoc(pairs, e);
      usedPredictions, usedGold := usedPredictions + {e.left}, usedGold + {e.right};
      pairs := pairs + [e];
    }
    assert edges[..|ranked|] == edges;
    r := MatchOutcome(SortBy(ByGold, pairs), Others(|predictions|, usedPredictions), Others(|gold|, usedGold));
  }

  lemma GreedyNothing()
    ensures Greedy([]) == [] && Lefts([]) == {} && Rights([]) == {}
    ensures forall s: seq<Edge> :: s[..0] == []
  {
  }

  lemma GreedyNext(edges: seq<Edge>, k: nat)
    requires k < |edges|
    ensures var g := Greedy(edges[..k]);
            Greedy(edges[..k + 1]) == if Blocked(g, edges[k]) then g else g + [edges[k]]
  {
    assert edges[..k + 1][..k] == edges[..k];
  }

  lemma SidesSnoc(es: seq<Edge>, e: Edge)
    ensures Lefts(es + [e]) == Lefts(es) + {e.left} && Rights(es + [e]) == Rights(es) + {e.right}
  {
    assert (es + [e])[..|es|] == es;
  }

  method ListCandidates<P, G>(predictions: seq<P>, gold: seq<G>, gate: Gate<P, G>) returns (cs: seq<Candidate>)
    ensures cs == AllCandidates(predictions, gold, gate, |predictions|)
  {
    cs := [];
    for i := 0 to |predictions|
      invariant cs == AllCandidates(predictions, gold, gate, i)
    {
      ghost var before := cs;
      for j := 0 to |gold|
        invariant cs == before + RowCandidates(predictions, gold, gate, i, j)
      {
        var scores := gate(predictions[i], gold[j]);
        if scores.Some? {
          cs := cs + [Candidate(scores.value, Edge(i, j))];
        }
      }
    }
  }

  // --- the candidates are the eligible pairs ---

  lemma {:induction false} RowMembers<P, G>(predictions: seq<P>, gold: seq<G>, gate: Gate<P, G>, p: nat, j: nat,
                                            c: Candidate)
    requires p < |predictions| && j <= |gold|
    ensures c in RowCandidates(predictions, gold, gate, p, j) <==>
            c.edge.left == p && c.edge.right < j && gate(predictions[p], gold[c.edge.right]) == Some(c.scores)
  {
    if j == 0 {
    } else {
      RowMembers(predictions, gold, gate, p, j - 1, c);
    }
  }

  lemma {:induction false} AllMembers<P, G>(predictions: seq<P>, gold: seq<G>, gate: Gate<P, G>, i: nat, c: Candidate)
    requires i <= |predictions|
    ensures c in AllCandidates(predictions, gold, gate, i) <==>
            c.edge.left < i && c.edge.right < |gold|
            && gate(predictions[c.edge.left], gold[c.edge.right]) == Some(c.scores)
  {
    hide AllCandidates, RowCandidates;
    AllSnoc(predictions, gold, gate, i);
    if i == 0 {
    } else {
      AllMembers(predictions, gold, gate, i - 1, c);
      RowMembers(predictions, gold, gate, i - 1, |gold|, c);
    }
  }

  lemma AllSnoc<P, G>(predictions: seq<P>, gold: seq<G>, gate: Gate<P, G>, i: nat)
    requires i <= |predictions|
    ensures AllCandidates(predictions, gold, gate, i)
            == if i == 0 then []
               else AllCandidates(predictions, gold, gate, i - 1)
                    + RowCandidates(predictions, gold, gate, i - 1, |gold|)
  {
  }

  /** Each place of the ranking holds an eligible pair with its scores. */
  ghost predicate Scored<P, G>(predictions: seq<P>, gold: seq<G>, gate: Gate<P, G>, c: Candidate) {
    Eligible(predictions, gold, gate, c.edge)
    && gate(predictions[c.edge.left], gold[c.edge.right]).value == c.scores
  }

  lemma RankingMembers<P, G>(predictions: seq<P>, gold: seq<G>, gate: Gate<P, G>)
    ensures forall c :: c in Ranking(predictions, gold, gate) <==> Scored(predictions, gold, gate, c)
    ensures Sorted(Ranked, Ranking(predictions, gold, gate))
  {
    forall c ensures c in Ranking(predictions, gold, gate) <==> Scored(predictions, gold, gate, c) {
      AllMembers(predictions, gold, gate, |predictions|, c);
    }
    SortBySorted(Ranked, AllCandidates(predictions, gold, gate, |predictions|));
  }

  lemma RankingAt<P, G>(predictions: seq<P>, gold: seq<G>, gate: Gate<P, G>, e: Edge) returns (k: nat)
    requires Eligible(predictions, gold, gate, e)
    ensures k < |Ranking(predictions, gold, gate)| && Ranking(predictions, gold, gate)[k].edge == e
  {
    RankingMembers(predictions, gold, gate);
    var c := Candidate(gate(predictions[e.left], gold[e.right]).value, e);
    assert Scored(predictions, gold, gate, c);
    k :| 0 <= k < |Ranking(predictions, gold, gate)| && Ranking(predictions, gold, gate)[k] == c;
  }

  lemma RankingEligible<P, G>(predictions: seq<P>, gold: seq<G>, gate: Gate<P, G>)
    ensures forall e :: e in EdgesOf(Ranking(predictions, gold, gate)) <==> Eligible(predictions, gold, gate, e)
  {
    RankingMembers(predictions, gold, gate);
    var ranking := Ranking(predictions, gold, gate);
    forall e ensures e in EdgesOf(ranking) <==> Eligible(predictions, gold, gate, e) {
      if e in EdgesOf(ranking) {
        var k :| 0 <= k < |ranking| && EdgesOf(ranking)[k] == e;
        assert ranking[k] in ranking;
      }
      if Eligible(predictions, gold, gate, e) {
        var k := RankingAt(predictions, gold, gate, e);
        assert EdgesOf(ranking)[k] == e;
      }
    }
  }

  // --- the one-to-one matching ---

  /** One eligible pair ranks before another. */
  ghost predicate Outranks<P, G>(predictions: seq<P>, gold: seq<G>, gate: Gate<P, G>, e: Edge, f: Edge)
    requires Eligible(predictions, gold, gate, e) && Eligible(predictions, gold, gate, f)
  {
    e != f && Ranked(Candidate(gate(predictions[e.left], gold[e.right]).value, e),
                     Candidate(gate(predictions[f.left], gold[f.right]).value, f))
  }

  /** One-to-one, eligible, and every eligible pair left out shares a side with a chosen pair that
      outranks it. */
  ghost predicate StableMatching<P, G>(predictions: seq<P>, gold: seq<G>, gate: Gate<P, G>, chosen: set<Edge>) {
    && (forall e :: e in chosen ==> Eligible(predictions, gold, gate, e))
    && (forall e, f :: e in chosen && f in chosen && e != f ==> !Touches(e, f))
    && (forall f :: Eligible(predictions, gold, gate, f) && f !in chosen ==>
          Displaced(predictions, gold, gate, chosen, f))
  }

  ghost predicate Displaced<P, G>(predictions: seq<P>, gold: seq<G>, gate: Gate<P, G>, chosen: set<Edge>, f: Edge)
    requires Eligible(predictions, gold, gate, f)
  {
    exists e :: e in chosen && Touches(e, f)
                && Eligible(predictions, gold, gate, e) && Outranks(predictions, gold, gate, e, f)
  }

  ghost function Chosen<P, G>(predictions: seq<P>, gold: seq<G>, gate: Gate<P, G>): set<Edge> {
    set e | e in Matched(predictions, gold, gate)
  }

  lemma MatchedStable<P, G>(predictions: seq<P>, gold: seq<G>, gate: Gate<P, G>)
    ensures StableMatching(predictions, gold, gate, Chosen(predictions, gold, gate))
  {
    var ranking := Ranking(predictions, gold, gate);
    var edges := EdgesOf(ranking);
    RankingEligible(predictions, gold, gate);
    RankingMembers(predictions, gold, gate);
    GreedyOneToOne(edges);
    forall f | Eligible(predictions, gold, gate, f) && f !in Chosen(predictions, gold, gate)
      ensures Displaced(predictions, gold, gate, Chosen(predictions, gold, gate), f)
    {
      var k := RankingAt(predictions, gold, gate, f);
      GreedyBlocksEarlier(edges, k);
      var j :| 0 <= j < k && edges[j] in Greedy(edges) && Touches(edges[j], edges[k]);
      assert Ranked(ranking[j], ranking[k]);
      assert ranking[j] in ranking && ranking[k] in ranking;
      assert Scored(predictions, gold, gate, ranking[j]) && Scored(predictions, gold, gate, ranking[k]);
      assert edges[j] in Chosen(predictions, gold, gate);
    }
  }

  lemma RankedBefore(ranking: seq<Candidate>, j: nat, k: nat)
    requires Sorted(Ranked, ranking) && j < |ranking| && k < |ranking|
    requires Ranked(ranking[j], ranking[k]) && ranking[j].edge != ranking[k].edge
    ensures j < k
  {
  }

  lemma StableInRanking<P, G>(predictions: seq<P>, gold: seq<G>, gate: Gate<P, G>, chosen: set<Edge>)
    requires StableMatching(predictions, gold, gate, chosen)
    ensures Stable(EdgesOf(Ranking(predictions, gold, gate)), chosen)
  {
    var ranking := Ranking(predictions, gold, gate);
    var edges := EdgesOf(ranking);
    RankingEligible(predictions, gold, gate);
    RankingMembers(predictions, gold, gate);
    forall k | 0 <= k < |edges| && edges[k] !in chosen ensures BlockedEarlier(edges, chosen, k) {
      assert edges[k] in edges;
      assert Displaced(predictions, gold, gate, chosen, edges[k]);
      var e :| e in chosen && Touches(e, edges[k])
               && Eligible(predictions, gold, gate, e) && Outranks(predictions, gold, gate, e, edges[k]);
      var j := RankingAt(predictions, gold, gate, e);
      assert edges[j] == e && ranking[j] in ranking && ranking[k] in ranking;
      RankedBefore(ranking, j, k);
    }
  }

  /** The matcher's result is the only such matching. */
  lemma MatchedUnique<P, G>(predictions: seq<P>, gold: seq<G>, gate: Gate<P, G>, chosen: set<Edge>)
    requires StableMatching(predictions, gold, gate, chosen)
    ensures chosen == Chosen(predictions, gold, gate)
  {
    MatchedStable(predictions, gold, gate);
    StableInRanking(predictions, gold, gate, chosen);
    StableInRanking(predictions, gold, gate, Chosen(predictions, gold, gate));
    StableUnique(EdgesOf(Ranking(predictions, gold, gate)), chosen, Chosen(predictions, gold, gate));
  }

  /** It keeps at least half as many pairs as any one-to-one choice of eligible pairs. */
  lemma MatchedHalf<P, G>(predictions: seq<P>, gold: seq<G>, gate: Gate<P, G>, other: seq<Edge>)
    requires OneToOne(other) && forall e :: e in other ==> Eligible(predictions, gold, gate, e)
    ensures |other| <= 2 * |Matched(predictions, gold, gate)|
  {
    var edges := EdgesOf(Ranking(predictions, gold, gate));
    RankingEligible(predictions, gold, gate);
    var unit: Edge -> real := _ => 1.0;
    GreedyHalf(unit, edges, other);
    UnitWeight(other);
    UnitWeight(Greedy(edges));
  }

  // --- input order ---

  /** `xs'` is `xs` rearranged: the item at `k` moves to `p[k]`. */
  ghost predicate Rearranged<T>(xs: seq<T>, xs': seq<T>, p: seq<nat>) {
    && IsPermutation(p, |xs|) && |xs'| == |xs|
    && forall k :: 0 <= k < |xs| ==> xs'[p[k]] == xs[k]
  }

  ghost predicate DistinctScores<P, G>(predictions: seq<P>, gold: seq<G>, gate: Gate<P, G>) {
    forall e, f :: Eligible(predictions, gold, gate, e) && Eligible(predictions, gold, gate, f) && e != f ==>
      gate(predictions[e.left], gold[e.right]) != gate(predictions[f.left], gold[f.right])
  }

  function Moved(p: seq<nat>, q: seq<nat>, e: Edge): Edge
    requires e.left < |p| && e.right < |q|
  {
    Edge(p[e.left], q[e.right])
  }

  lemma MovedTouches(p: seq<nat>, q: seq<nat>, e: Edge, f: Edge)
    requires Injective(p) && Injective(q)
    requires e.left < |p| && e.right < |q| && f.left < |p| && f.right < |q|
    ensures Touches(Moved(p, q, e), Moved(p, q, f)) <==> Touches(e, f)
    ensures Moved(p, q, e) == Moved(p, q, f) <==> e == f
  {
    assert p[e.left] == p[f.left] <==> e.left == f.left by {
      if e.left < f.left { assert p[e.left] != p[f.left]; } else if f.left < e.left { assert p[f.left] != p[e.left]; }
    }
    assert q[e.right] == q[f.right] <==> e.right == f.right by {
      assert e.right < f.right ==> q[e.right] != q[f.right];
      assert f.right < e.right ==> q[f.right] != q[e.right];
    }
  }

  lemma MovedFrom(p: seq<nat>, q: seq<nat>, m: nat, n: nat, e': Edge) returns (e: Edge)
    requires IsPermutation(p, m) && IsPermutation(q, n) && e'.left < m && e'.right < n
    ensures e.left < m && e.right < n && Moved(p, q, e) == e'
  {
    PermutationOnto(p, m);
    PermutationOnto(q, n);
    assert e'.left in p && e'.right in q;
    var i :| 0 <= i < m && p[i] == e'.left;
    var j :| 0 <= j < n && q[j] == e'.right;
    e := Edge(i, j);
  }

  /** The matching of the rearranged inputs, carried back. */
  ghost function Pulled<P, G>(predictions: seq<P>, gold: seq<G>, gate: Gate<P, G>, p: seq<nat>, q: seq<nat>,
                              chosen': set<Edge>): set<Edge>
    requires |p| == |predictions| && |q| == |gold|
  {
    set e | e in EdgesOf(Ranking(predictions, gold, gate))
            && e.left < |p| && e.right < |q| && Moved(p, q, e) in chosen'
  }

  lemma PulledStable<P, G>(predictions: seq<P>, gold: seq<G>, predictions': seq<P>, gold': seq<G>, gate: Gate<P, G>,
                           p: seq<nat>, q: seq<nat>)
    requires Rearranged(predictions, predictions', p) && Rearranged(gold, gold', q)
    requires DistinctScores(predictions, gold, gate)
    ensures StableMatching(predictions, gold, gate,
                           Pulled(predictions, gold, gate, p, q, Chosen(predictions', gold', gate)))
  {
    var chosen' := Chosen(predictions', gold', gate);
    var pulled := Pulled(predictions, gold, gate, p, q, chosen');
    RankingEligible(predictions, gold, gate);
    MatchedStable(predictions', gold', gate);
    forall e, f | e in pulled && f in pulled && e != f ensures !Touches(e, f) {
      MovedTouches(p, q, e, f);
    }
    forall f | Eligible(predictions, gold, gate, f) && f !in pulled
      ensures Displaced(predictions, gold, gate, pulled, f)
    {
      var f' := Moved(p, q, f);
      assert Eligible(predictions', gold', gate, f') && f' !in chosen';
      assert Displaced(predictions', gold', gate, chosen', f');
      var e' :| e' in chosen' && Touches(e', f')
                && Eligible(predictions', gold', gate, e') && Outranks(predictions', gold', gate, e', f');
      var e := MovedFrom(p, q, |predictions|, |gold|, e');
      MovedTouches(p, q, e, f);
      assert Eligible(predictions, gold, gate, e);
      assert e in pulled;
      assert Outranks(predictions, gold, gate, e, f);
    }
  }

  /** With distinct score triples, rearranging the inputs only rearranges the matching. */
  lemma OrderIndependent<P, G>(predictions: seq<P>, gold: seq<G>, predictions': seq<P>, gold': seq<G>, gate: Gate<P, G>,
                               p: seq<nat>, q: seq<nat>, e: Edge)
    requires Rearranged(predictions, predictions', p) && Rearranged(gold, gold', q)
    requires DistinctScores(predictions, gold, gate)
    requires e.left < |predictions| && e.right < |gold|
    ensures e in Matched(predictions, gold, gate) <==> Moved(p, q, e) in Matched(predictions', gold', gate)
  {
    PulledStable(predictions, gold, predictions', gold', gate, p, q);
    MatchedUnique(predictions, gold, gate, Pulled(predictions, gold, gate, p, q, Chosen(predictions', gold', gate)));
    RankingEligible(predictions, gold, gate);
    MatchedStable(predictions', gold', gate);
    if Moved(p, q, e) in Matched(predictions', gold', gate) {
      assert Moved(p, q, e) in Chosen(predictions', gold', gate);
      assert Eligible(predictions, gold, gate, e);
    }
    assert e in Chosen(predictions, gold, gate) <==> e in Matched(predictions, gold, gate);
  }

  // --- the same, on the gate's numbers ---

  /** The pair `e` scored `a` comes before the pair `f` scored `b`, or is it: a higher obligation score, on equal
      ones the actor score, then the action score, then the smaller indices. */
  predicate Ahead(a: Scores, e: Edge, b: Scores, f: Edge) {
    && a.obligation >= b.obligation
    && (a.obligation == b.obligation ==>
          && a.actor >= b.actor
          && (a.actor == b.actor ==>
                && a.action >= b.action
                && (a.action == b.action ==> e.left <= f.left && (e.left == f.left ==> e.right <= f.right))))
  }

  /** No prediction and no gold item is paired twice, every pair passes the gate, and every other pair that passes
      it shares a prediction or a gold item with a pair that is ahead of it; pairs go by gold item. */
  ghost predicate ByScores<P, G>(predictions: seq<P>, gold: seq<G>, gate: Gate<P, G>, pairs: seq<Edge>) {
    && (forall i, j :: 0 <= i < j < |pairs| ==> pairs[i].right < pairs[j].right && pairs[i].left != pairs[j].left)
    && (forall e :: e in pairs ==> Eligible(predictions, gold, gate, e))
    && (forall f :: Eligible(predictions, gold, gate, f) && f !in pairs ==> Beaten(predictions, gold, gate, pairs, f))
  }

  ghost predicate Beaten<P, G>(predictions: seq<P>, gold: seq<G>, gate: Gate<P, G>, pairs: seq<Edge>, f: Edge)
    requires Eligible(predictions, gold, gate, f)
  {
    exists e :: e in pairs && (e.left == f.left || e.right == f.right) && Eligible(predictions, gold, gate, e)
                && Ahead(gate(predictions[e.left], gold[e.right]).value, e,
                         gate(predictions[f.left], gold[f.right]).value, f)
  }

  ghost predicate LeftOver<P, G>(predictions: seq<P>, gold: seq<G>, r: MatchOutcome) {
    && Increases(r.unmatchedPredictions) && Increases(r.unmatchedGold)
    && (forall p: nat :: p in r.unmatchedPredictions <==> p < |predictions| && !HasLeft(r.pairs, p))
    && (forall g: nat :: g in r.unmatchedGold <==> g < |gold| && !HasRight(r.pairs, g))
  }

  ghost predicate HasLeft(es: seq<Edge>, p: nat) {
    exists e :: e in es && e.left == p
  }

  ghost predicate HasRight(es: seq<Edge>, g: nat) {
    exists e :: e in es && e.right == g
  }

  lemma OutranksAhead<P, G>(predictions: seq<P>, gold: seq<G>, gate: Gate<P, G>, e: Edge, f: Edge)
    requires Eligible(predictions, gold, gate, e) && Eligible(predictions, gold, gate, f)
    ensures Outranks(predictions, gold, gate, e, f) <==>
            e != f && Ahead(gate(predictions[e.left], gold[e.right]).value, e,
                            gate(predictions[f.left], gold[f.right]).value, f)
  {
  }

  lemma PairsByGold(pairs: seq<Edge>)
    requires OneToOne(pairs)
    ensures var r := SortBy(ByGold, pairs);
            forall i, j :: 0 <= i < j < |r| ==> r[i].right < r[j].right && r[i].left != r[j].left
  {
    var r := SortBy(ByGold, pairs);
    SortBySorted(ByGold, pairs);
    assert Distinct(pairs);
    SortByDistinct(ByGold, pairs);
    hide SortBy;
    forall i, j | 0 <= i < j < |r| ensures r[i].right < r[j].right && r[i].left != r[j].left {
      assert r[i] in pairs && r[j] in pairs && r[i] != r[j];
      assert ByGold(r[i], r[j]);
      var k :| 0 <= k < |pairs| && pairs[k] == r[i];
      var l :| 0 <= l < |pairs| && pairs[l] == r[j];
      assert k < l || l < k;
    }
  }

  /** What the matcher returns, on the scores themselves. */
  lemma OutcomeByScores<P, G>(predictions: seq<P>, gold: seq<G>, gate: Gate<P, G>)
    ensures var pairs := Matched(predictions, gold, gate);
            var r := MatchOutcome(SortBy(ByGold, pairs),
                                  Others(|predictions|, Lefts(pairs)), Others(|gold|, Rights(pairs)));
            ByScores(predictions, gold, gate, r.pairs) && LeftOver(predictions, gold, r)
  {
    var pairs := Matched(predictions, gold, gate);
    var sorted := SortBy(ByGold, pairs);
    hide Matched, SortBy, Lefts, Rights, Eligible, Beaten, OneToOne, LeftOver;
    MatchedEligible(predictions, gold, gate);
    PairsByGold(pairs);
    assert forall e :: e in sorted <==> e in pairs;
    SidesLeftOver(predictions, gold, pairs, sorted);
    forall f | Eligible(predictions, gold, gate, f) && f !in sorted
      ensures Beaten(predictions, gold, gate, sorted, f)
    {
      MatchedBeats(predictions, gold, gate, sorted, f);
    }
  }

  lemma MatchedBeats<P, G>(predictions: seq<P>, gold: seq<G>, gate: Gate<P, G>, pairs: seq<Edge>, f: Edge)
    requires Eligible(predictions, gold, gate, f) && f !in pairs
    requires forall e :: e in pairs <==> e in Matched(predictions, gold, gate)
    ensures Beaten(predictions, gold, gate, pairs, f)
  {
    MatchedStable(predictions, gold, gate);
    hide Matched, Outranks, Ahead, Eligible;
    assert Displaced(predictions, gold, gate, Chosen(predictions, gold, gate), f);
    var e :| e in Chosen(predictions, gold, gate) && Touches(e, f)
             && Eligible(predictions, gold, gate, e) && Outranks(predictions, gold, gate, e, f);
    OutranksAhead(predictions, gold, gate, e, f);
  }

  lemma MatchedEligible<P, G>(predictions: seq<P>, gold: seq<G>, gate: Gate<P, G>)
    ensures OneToOne(Matched(predictions, gold, gate))
    ensures forall e :: e in Matched(predictions, gold, gate) ==> Eligible(predictions, gold, gate, e)
  {
    RankingEligible(predictions, gold, gate);
    GreedyOneToOne(EdgesOf(Ranking(predictions, gold, gate)));
  }

  lemma SidesLeftOver<P, G>(predictions: seq<P>, gold: seq<G>, pairs: seq<Edge>, sorted: seq<Edge>)
    requires forall e :: e in sorted <==> e in pairs
    ensures LeftOver(predictions, gold, MatchOutcome(sorted, Others(|predictions|, Lefts(pairs)),
                                                     Others(|gold|, Rights(pairs))))
  {
    hide Lefts, Rights;
    forall p: nat ensures p in Lefts(pairs) <==> HasLeft(sorted, p) {
      LeftsExactly(pairs, p);
    }
    forall g: nat ensures g in Rights(pairs) <==> HasRight(sorted, g) {
      RightsExactly(pairs, g);
    }
    hide HasLeft, HasRight;
  }

  lemma {:induction false} LeftsExactly(es: seq<Edge>, p: nat)
    ensures p in Lefts(es) <==> HasLeft(es, p)
  {
    if es == [] {
    } else {
      var t, last := es[..|es| - 1], es[|es| - 1];
      LeftsExactly(t, p);
      assert es == t + [last];
      if last.left == p {
        assert last in es;
      } else if HasLeft(es, p) {
        var e :| e in es && e.left == p;
        assert e in t;
      }
    }
  }

  lemma {:induction false} RightsExactly(es: seq<Edge>, g: nat)
    ensures g in Rights(es) <==> HasRight(es, g)
  {
    if es == [] {
    } else {
      var t, last := es[..|es| - 1], es[|es| - 1];
      RightsExactly(t, g);
      assert es == t + [last];
      if last.right == g {
        assert last in es;
      } else if HasRight(es, g) {
        var e :| e in es && e.right == g;
        assert e in t;
      }
    }
  }

  // --- coverage matching ---

  /** The predictions among the first `i` that pass the gates for gold item `g`. */
  function Hits<P, G>(predictions: seq<P>, gold: seq<G>, gate: Gate<P, G>, g: nat, i: nat): seq<Candidate>
    requires g < |gold| && i <= |predictions|
  {
    if i == 0 then []
    else
      var t := Hits(predictions, gold, gate, g, i - 1);
      match gate(predictions[i - 1], gold[g])
      case None => t
      case Some(scores) => t + [Candidate(scores, Edge(i - 1, g))]
  }

  lemma {:induction false} HitsMembers<P, G>(predictions: seq<P>, gold: seq<G>, gate: Gate<P, G>, g: nat, i: nat,
                                             c: Candidate)
    requires g < |gold| && i <= |predictions|
    ensures c in Hits(predictions, gold, gate, g, i) <==>
            c.edge.left < i && c.edge.right == g && gate(predictions[c.edge.left], gold[g]) == Some(c.scores)
  {
    if i > 0 { HitsMembers(predictions, gold, gate, g, i - 1, c); }
  }

  datatype CoverageOutcome = CoverageOutcome(
    covered: seq<nat>,
    uncovered: seq<nat>,
    unmatchedPredictions: seq<nat>,
    absorbed: set<nat>,
    absorbedBy: seq<seq<nat>>,
    primary: seq<Edge>)

  ghost predicate Covered<P, G>(predictions: seq<P>, gold: seq<G>, gate: Gate<P, G>, g: nat) {
    exists p: nat :: Eligible(predictions, gold, gate, Edge(p, g))
  }

  ghost predicate Absorbed<P, G>(predictions: seq<P>, gold: seq<G>, gate: Gate<P, G>, p: nat) {
    exists g: nat :: Eligible(predictions, gold, gate, Edge(p, g))
  }

  /** The pair for `g` that no other eligible pair for `g` outranks. */
  ghost predicate Primary<P, G>(predictions: seq<P>, gold: seq<G>, gate: Gate<P, G>, e: Edge) {
    && Eligible(predictions, gold, gate, e)
    && forall f :: Eligible(predictions, gold, gate, f) && f.right == e.right ==>
        !Outranks(predictions, gold, gate, f, e)
  }

  /** `ps` lists the predictions eligible for `g`, each once, none after one that it outranks. */
  ghost predicate RanksAll<P, G>(predictions: seq<P>, gold: seq<G>, gate: Gate<P, G>, g: nat, ps: seq<nat>) {
    && Distinct(ps)
    && (forall p: nat :: p in ps <==> Eligible(predictions, gold, gate, Edge(p, g)))
    && (forall i, j :: 0 <= i < j < |ps| ==>
          !Outranks(predictions, gold, gate, Edge(ps[j], g), Edge(ps[i], g)))
  }

  /** The hits of one gold item, best first. */
  function SortedHits<P, G>(predictions: seq<P>, gold: seq<G>, gate: Gate<P, G>, g: nat): seq<Candidate>
    requires g < |gold|
  {
    SortBy(Ranked, Hits(predictions, gold, gate, g, |predictions|))
  }

  lemma HitsScored<P, G>(predictions: seq<P>, gold: seq<G>, gate: Gate<P, G>, g: nat)
    requires g < |gold|
    ensures forall c :: c in SortedHits(predictions, gold, gate, g) <==>
              c.edge.right == g && Scored(predictions, gold, gate, c)
    ensures Sorted(Ranked, SortedHits(predictions, gold, gate, g))
  {
    var raw := Hits(predictions, gold, gate, g, |predictions|);
    SortBySorted(Ranked, raw);
    forall c ensures c in SortBy(Ranked, raw) <==> c.edge.right == g && Scored(predictions, gold, gate, c) {
      HitsMembers(predictions, gold, gate, g, |predictions|, c);
    }
  }

  lemma HitOf<P, G>(predictions: seq<P>, gold: seq<G>, gate: Gate<P, G>, f: Edge) returns (k: nat)
    requires Eligible(predictions, gold, gate, f)
    ensures var hits := SortedHits(predictions, gold, gate, f.right);
            k < |hits| && hits[k] == Candidate(gate(predictions[f.left], gold[f.right]).value, f)
  {
    HitsScored(predictions, gold, gate, f.right);
    hide SortedHits;
    var c := Candidate(gate(predictions[f.left], gold[f.right]).value, f);
    assert Scored(predictions, gold, gate, c);
    k :| 0 <= k < |SortedHits(predictions, gold, gate, f.right)|
      && SortedHits(predictions, gold, gate, f.right)[k] == c;
  }

  /** A gold item has hits when it is covered, and the first of them is its primary pair. */
  lemma HitsPrimary<P, G>(predictions: seq<P>, gold: seq<G>, gate: Gate<P, G>, g: nat)
    requires g < |gold|
    ensures var hits := SortedHits(predictions, gold, gate, g);
            && (hits != [] <==> Covered(predictions, gold, gate, g))
            && (hits != [] ==> Primary(predictions, gold, gate, hits[0].edge) && hits[0].edge.right == g)
  {
    hide SortedHits;
    var hits := SortedHits(predictions, gold, gate, g);
    HitsScored(predictions, gold, gate, g);
    if hits != [] {
      var first := hits[0];
      assert first in hits;
      assert Eligible(predictions, gold, gate, Edge(first.edge.left, g));
      forall f | Eligible(predictions, gold, gate, f) && f.right == g
        ensures !Outranks(predictions, gold, gate, f, first.edge)
      {
        var k := HitOf(predictions, gold, gate, f);
        assert k > 0 ==> Ranked(hits[0], hits[k]);
      }
    }
    if p: nat :| Eligible(predictions, gold, gate, Edge(p, g)) {
      var k := HitOf(predictions, gold, gate, Edge(p, g));
    }
  }

  lemma {:induction false} HitsDistinct<P, G>(predictions: seq<P>, gold: seq<G>, gate: Gate<P, G>, g: nat, i: nat)
    requires g < |gold| && i <= |predictions|
    ensures Distinct(Hits(predictions, gold, gate, g, i))
  {
    if i == 0 {
    } else {
      HitsDistinct(predictions, gold, gate, g, i - 1);
      var t := Hits(predictions, gold, gate, g, i - 1);
      forall k | 0 <= k < |t| ensures t[k].edge.left < i - 1 {
        assert t[k] in t;
        HitsMembers(predictions, gold, gate, g, i - 1, t[k]);
      }
    }
  }

  function LeftsInOrder(hits: seq<Candidate>): (r: seq<nat>)
    ensures |r| == |hits| && forall k :: 0 <= k < |r| ==> r[k] == hits[k].edge.left
  {
    seq(|hits|, k requires 0 <= k < |hits| => hits[k].edge.left)
  }

  lemma HitsApart<P, G>(predictions: seq<P>, gold: seq<G>, gate: Gate<P, G>, c: Candidate, d: Candidate)
    requires Scored(predictions, gold, gate, c) && Scored(predictions, gold, gate, d)
    requires c.edge.right == d.edge.right && c != d && Ranked(c, d)
    ensures c.edge.left != d.edge.left && !Outranks(predictions, gold, gate, d.edge, c.edge)
  {
  }

  /** The sorted hits of a gold item rank everything that it absorbs. */
  lemma HitsRankAll<P, G>(predictions: seq<P>, gold: seq<G>, gate: Gate<P, G>, g: nat)
    requires g < |gold|
    ensures RanksAll(predictions, gold, gate, g, LeftsInOrder(SortedHits(predictions, gold, gate, g)))
  {
    var hits := SortedHits(predictions, gold, gate, g);
    HitsDistinct(predictions, gold, gate, g, |predictions|);
    SortByDistinct(Ranked, Hits(predictions, gold, gate, g, |predictions|));
    HitsScored(predictions, gold, gate, g);
    hide SortedHits, Outranks, Ranked;
    var ps := LeftsInOrder(hits);
    forall k | 0 <= k < |hits|
      ensures Scored(predictions, gold, gate, hits[k]) && hits[k].edge == Edge(ps[k], g)
    {
      assert hits[k] in hits;
    }
    forall p: nat ensures p in ps <==> Eligible(predictions, gold, gate, Edge(p, g)) {
      if Eligible(predictions, gold, gate, Edge(p, g)) {
        var k := HitOf(predictions, gold, gate, Edge(p, g));
        assert ps[k] == p;
      }
    }
    forall i, j | 0 <= i < j < |ps|
      ensures ps[i] != ps[j] && !Outranks(predictions, gold, gate, Edge(ps[j], g), Edge(ps[i], g))
    {
      HitsApart(predictions, gold, gate, hits[i], hits[j]);
    }
  }

  /** What the coverage matcher returns. */
  ghost predicate Covers<P, G>(predictions: seq<P>, gold: seq<G>, gate: Gate<P, G>, r: CoverageOutcome) {
    && Increases(r.covered) && Increases(r.uncovered) && |r.covered| + |r.uncovered| == |gold|
    && (forall g: nat :: g in r.covered <==> Covered(predictions, gold, gate, g))
    && (forall g: nat :: g in r.uncovered <==> g < |gold| && !Covered(predictions, gold, gate, g))
    && (forall p: nat :: p in r.absorbed <==> Absorbed(predictions, gold, gate, p))
    && r.unmatchedPredictions == Others(|predictions|, r.absorbed)
    && |r.primary| == |r.covered|
    && (forall k :: 0 <= k < |r.primary| ==>
          Primary(predictions, gold, gate, r.primary[k]) && r.primary[k].right == r.covered[k])
    && RankedFor(predictions, gold, gate, r.covered, r.absorbedBy)
  }

  /** Each covered gold item comes with everything it absorbs, best first. */
  ghost predicate RankedFor<P, G>(predictions: seq<P>, gold: seq<G>, gate: Gate<P, G>,
                                  covered: seq<nat>, absorbedBy: seq<seq<nat>>)
  {
    && |absorbedBy| == |covered|
    && forall k :: 0 <= k < |covered| ==> RanksAll(predictions, gold, gate, covered[k], absorbedBy[k])
  }

  /** The same on the gate's numbers: the primary pair of a covered gold item is ahead of every pair for it, and
      what it absorbs is listed with each prediction ahead of the next. */
  lemma CoverageByScores<P, G>(predictions: seq<P>, gold: seq<G>, gate: Gate<P, G>, r: CoverageOutcome, k: nat)
    requires Covers(predictions, gold, gate, r) && k < |r.covered|
    ensures var g, e, ps := r.covered[k], r.primary[k], r.absorbedBy[k];
            && Eligible(predictions, gold, gate, e) && e.right == g
            && (forall p: nat :: p in ps <==> Eligible(predictions, gold, gate, Edge(p, g)))
            && (forall p: nat :: Eligible(predictions, gold, gate, Edge(p, g)) ==>
                  Ahead(gate(predictions[e.left], gold[g]).value, e, gate(predictions[p], gold[g]).value, Edge(p, g)))
            && (forall i, j :: 0 <= i < j < |ps| ==>
                  Eligible(predictions, gold, gate, Edge(ps[i], g)) && Eligible(predictions, gold, gate, Edge(ps[j], g))
                  && Ahead(gate(predictions[ps[i]], gold[g]).value, Edge(ps[i], g),
                           gate(predictions[ps[j]], gold[g]).value, Edge(ps[j], g)))
  {
    var g, e, ps := r.covered[k], r.primary[k], r.absorbedBy[k];
    assert Primary(predictions, gold, gate, e) && RanksAll(predictions, gold, gate, g, ps);
    hide Covers, Outranks, Ahead;
    forall p: nat | Eligible(predictions, gold, gate, Edge(p, g))
      ensures Ahead(gate(predictions[e.left], gold[g]).value, e, gate(predictions[p], gold[g]).value, Edge(p, g))
    {
      AheadTotal(predictions, gold, gate, e, Edge(p, g));
    }
    forall i, j | 0 <= i < j < |ps|
      ensures Eligible(predictions, gold, gate, Edge(ps[i], g)) && Eligible(predictions, gold, gate, Edge(ps[j], g))
      ensures Ahead(gate(predictions[ps[i]], gold[g]).value, Edge(ps[i], g),
                    gate(predictions[ps[j]], gold[g]).value, Edge(ps[j], g))
    {
      assert ps[i] in ps && ps[j] in ps;
      AheadTotal(predictions, gold, gate, Edge(ps[i], g), Edge(ps[j], g));
    }
  }

  lemma AheadTotal<P, G>(predictions: seq<P>, gold: seq<G>, gate: Gate<P, G>, e: Edge, f: Edge)
    requires Eligible(predictions, gold, gate, e) && Eligible(predictions, gold, gate, f)
    requires !Outranks(predictions, gold, gate, f, e)
    ensures Ahead(gate(predictions[e.left], gold[e.right]).value, e,
                  gate(predictions[f.left], gold[f.right]).value, f)
  {
  }

  method CollectHits<P, G>(predictions: seq<P>, gold: seq<G>, gate: Gate<P, G>) returns (goldHits: seq<seq<Candidate>>)
    ensures |goldHits| == |gold|
    ensures forall g :: 0 <= g < |gold| ==> goldHits[g] == Hits(predictions, gold, gate, g, |predictions|)
  {
    goldHits := seq(|gold|, _ => []);
    for i := 0 to |predictions|
      invariant |goldHits| == |gold|
      invariant forall g :: 0 <= g < |gold| ==> goldHits[g] == Hits(predictions, gold, gate, g, i)
    {
      for j := 0 to |gold|
        invariant |goldHits| == |gold|
        invariant forall g :: 0 <= g < |gold| ==>
                    goldHits[g] == Hits(predictions, gold, gate, g, if g < j then i + 1 else i)
      {
        var scores := gate(predictions[i], gold[j]);
        if scores.Some? {
          goldHits := goldHits[j := goldHits[j] + [Candidate(scores.value, Edge(i, j))]];
        }
      }
    }
  }

  function Predictions(hits: seq<Candidate>): set<nat> {
    set c | c in hits :: c.edge.left
  }

  /** Outcome over the first `g` gold items. */
  ghost predicate CoversTo<P, G>(predictions: seq<P>, gold: seq<G>, gate: Gate<P, G>, g: nat,
                                 covered: seq<nat>, uncovered: seq<nat>, absorbed: set<nat>, primary: seq<Edge>)
  {
    && Increases(covered) && Increases(uncovered) && |covered| + |uncovered| == g
    && (forall x: nat :: x in covered <==> x < g && Covered(predictions, gold, gate, x))
    && (forall x: nat :: x in uncovered <==> x < g && !Covered(predictions, gold, gate, x))
    && (forall p: nat :: p in absorbed <==> exists x: nat :: x < g && Eligible(predictions, gold, gate, Edge(p, x)))
    && |primary| == |covered|
    && (forall k :: 0 <= k < |primary| ==>
          Primary(predictions, gold, gate, primary[k]) && primary[k].right == covered[k])
  }

  lemma IncreasesSnoc(s: seq<nat>, g: nat)
    requires Increases(s) && forall x: nat :: x in s ==> x < g
    ensures Increases(s + [g])
  {
    assert forall k :: 0 <= k < |s| ==> s[k] in s;
  }

  lemma CoverNext<P, G>(predictions: seq<P>, gold: seq<G>, gate: Gate<P, G>, g: nat,
                        covered: seq<nat>, uncovered: seq<nat>, absorbed: set<nat>, primary: seq<Edge>)
    requires g < |gold| && CoversTo(predictions, gold, gate, g, covered, uncovered, absorbed, primary)
    ensures var hits := SortedHits(predictions, gold, gate, g);
            if hits == [] then CoversTo(predictions, gold, gate, g + 1, covered, uncovered + [g], absorbed, primary)
            else CoversTo(predictions, gold, gate, g + 1, covered + [g], uncovered,
                          absorbed + Predictions(hits), primary + [hits[0].edge])
  {
    hide SortedHits, Eligible, Primary, Increases;
    var hits := SortedHits(predictions, gold, gate, g);
    HitsPrimary(predictions, gold, gate, g);
    PredictionsOf(predictions, gold, gate, g);
    IncreasesSnoc(covered, g);
    IncreasesSnoc(uncovered, g);
    forall p: nat ensures p in absorbed + Predictions(hits) <==>
                          exists x: nat :: x < g + 1 && Eligible(predictions, gold, gate, Edge(p, x)) {
      if p in Predictions(hits) { assert Eligible(predictions, gold, gate, Edge(p, g)); }
    }
    if hits == [] {
      assert Predictions(hits) == {};
      assert absorbed + Predictions(hits) == absorbed;
    }
  }

  lemma PredictionsOf<P, G>(predictions: seq<P>, gold: seq<G>, gate: Gate<P, G>, g: nat)
    requires g < |gold|
    ensures forall p: nat :: p in Predictions(SortedHits(predictions, gold, gate, g)) <==>
                             Eligible(predictions, gold, gate, Edge(p, g))
  {
    hide SortedHits;
    HitsScored(predictions, gold, gate, g);
    var hits := SortedHits(predictions, gold, gate, g);
    forall p: nat ensures p in Predictions(hits) <==> Eligible(predictions, gold, gate, Edge(p, g)) {
      if Eligible(predictions, gold, gate, Edge(p, g)) {
        var k := HitOf(predictions, gold, gate, Edge(p, g));
        assert hits[k] in hits;
      }
    }
  }

  method MatchObligationsCoverage<P, G>(predictions: seq<P>, gold: seq<G>, gate: Gate<P, G>)
    returns (r: CoverageOutcome)
    ensures Covers(predictions, gold, gate, r)
  {
    hide Covered, Eligible, Primary, Hits, SortBy, Predictions, Increases, RanksAll, RankedFor, LeftsInOrder;
    var goldHits := CollectHits(predictions, gold, gate);
    var covered: seq<nat>, uncovered: seq<nat> := [], [];
    var absorbed: set<nat> := {};
    var absorbedBy: seq<seq<nat>> := [];
    var primary: seq<Edge> := [];
    NothingCovered(predictions, gold, gate);
    for g := 0 to |gold|
      invariant CoversTo(predictions, gold, gate, g, covered, uncovered, absorbed, primary)
      invariant RankedFor(predictions, gold, gate, covered, absorbedBy)
    {
      CoverNext(predictions, gold, gate, g, covered, uncovered, absorbed, primary);
      var hits := SortBy(Ranked, goldHits[g]);
      if hits == [] {
        uncovered := uncovered + [g];
        continue;
      }
      HitsRankAll(predictions, gold, gate, g);
      RankedNext(predictions, gold, gate, covered, absorbedBy, g, LeftsInOrder(hits));
      covered, absorbed := covered + [g], absorbed + Predictions(hits);
      absorbedBy := absorbedBy + [LeftsInOrder(hits)];
      primary := primary + [hits[0].edge];
    }
    r := CoverageOutcome(covered, uncovered, Others(|predictions|, absorbed), absorbed, absorbedBy, primary);
    GoldBound(predictions, gold, gate);
  }

  lemma NothingCovered<P, G>(predictions: seq<P>, gold: seq<G>, gate: Gate<P, G>)
    ensures CoversTo(predictions, gold, gate, 0, [], [], {}, []) && RankedFor(predictions, gold, gate, [], [])
  {
  }

  lemma RankedNext<P, G>(predictions: seq<P>, gold: seq<G>, gate: Gate<P, G>,
                         covered: seq<nat>, absorbedBy: seq<seq<nat>>, g: nat, ps: seq<nat>)
    requires RankedFor(predictions, gold, gate, covered, absorbedBy) && RanksAll(predictions, gold, gate, g, ps)
    ensures RankedFor(predictions, gold, gate, covered + [g], absorbedBy + [ps])
  {
    hide RanksAll;
  }

  lemma GoldBound<P, G>(predictions: seq<P>, gold: seq<G>, gate: Gate<P, G>)
    ensures forall g: nat :: Covered(predictions, gold, gate, g) ==> g < |gold|
    ensures forall p: nat :: Absorbed(predictions, gold, gate, p) <==>
              exists x: nat :: x < |gold| && Eligible(predictions, gold, gate, Edge(p, x))
  {
    forall p: nat | Absorbed(predictions, gold, gate, p)
      ensures exists x: nat :: x < |gold| && Eligible(predictions, gold, gate, Edge(p, x))
    {
      var g: nat :| Eligible(predictions, gold, gate, Edge(p, g));
      assert g < |gold|;
    }
  }

  // --- coverage dominates one-to-one ---

  lemma IncreasingCount(s: seq<nat>, x: set<nat>)
    requires Increases(s) && forall k: nat :: k in x <==> k in s
    ensures |s| == |x|
  {
    ValuesCount(s);
    assert Values(s) == x;
  }

  ghost function ToSet(s: seq<nat>): set<nat> {
    set k | k in s
  }

  /** On the same inputs, every gold item matched one-to-one is covered and every prediction the
      coverage matcher leaves over is left over one-to-one: true positives do not fall, false
      positives and false negatives do not rise. */
  lemma CoverageDominates<P, G>(predictions: seq<P>, gold: seq<G>, gate: Gate<P, G>, r: CoverageOutcome)
    requires Covers(predictions, gold, gate, r)
    ensures var pairs := Matched(predictions, gold, gate);
            var leftPredictions, leftGold := Others(|predictions|, Lefts(pairs)), Others(|gold|, Rights(pairs));
            && (forall e :: e in pairs ==> e.right in r.covered && e.left in r.absorbed)
            && (forall p :: p in r.unmatchedPredictions ==> p in leftPredictions)
            && |pairs| <= |r.covered|
            && |r.unmatchedPredictions| <= |leftPredictions|
            && |r.uncovered| <= |leftGold|
            && |pairs| + |leftGold| == |gold| == |r.covered| + |r.uncovered|
  {
    var pairs := Matched(predictions, gold, gate);
    RankingEligible(predictions, gold, gate);
    GreedyOneToOne(EdgesOf(Ranking(predictions, gold, gate)));
    forall e | e in pairs ensures Eligible(predictions, gold, gate, e) && e.right in r.covered && e.left in r.absorbed {
      assert Eligible(predictions, gold, gate, Edge(e.left, e.right));
    }
    hide Matched, Covers, Covered, Absorbed, Primary;
    PairSides(pairs, ToSet(r.covered), r.absorbed);
    SideCounts(pairs);
    OthersFewer(|predictions|, Lefts(pairs), r.absorbed);
    assert |Others(|gold|, Rights(pairs))| == |gold| - |pairs| by {
      RightsBelow(pairs, |gold|);
      OthersCount(|gold|, Rights(pairs));
    }
    assert |ToSet(r.covered)| == |r.covered| by {
      CoveredIncreases(predictions, gold, gate, r);
      IncreasingCount(r.covered, ToSet(r.covered));
    }
    SubsetSmaller(Rights(pairs), ToSet(r.covered));
    CoveredIncreases(predictions, gold, gate, r);
  }

  lemma CoveredIncreases<P, G>(predictions: seq<P>, gold: seq<G>, gate: Gate<P, G>, r: CoverageOutcome)
    requires Covers(predictions, gold, gate, r)
    ensures Increases(r.covered) && |r.covered| + |r.uncovered| == |gold|
    ensures r.unmatchedPredictions == Others(|predictions|, r.absorbed)
  {
  }

  lemma {:induction false} PairSides(pairs: seq<Edge>, golds: set<nat>, absorbed: set<nat>)
    requires forall k :: 0 <= k < |pairs| ==> pairs[k].right in golds && pairs[k].left in absorbed
    ensures Rights(pairs) <= golds && Lefts(pairs) <= absorbed
  {
    if pairs == [] {
    } else {
      PairSides(pairs[..|pairs| - 1], golds, absorbed);
    }
  }

  lemma {:induction false} RightsBelow(pairs: seq<Edge>, n: nat)
    requires forall k :: 0 <= k < |pairs| ==> pairs[k].right < n
    ensures forall x: nat :: x in Rights(pairs) ==> x < n
  {
    if pairs == [] {
    } else {
      RightsBelow(pairs[..|pairs| - 1], n);
    }
  }

  lemma OthersFewer(n: nat, a: set<nat>, b: set<nat>)
    requires a <= b
    ensures |Others(n, b)| <= |Others(n, a)|
  {
    OthersCountWithin(n, a);
    OthersCountWithin(n, b);
    SubsetSmaller(Within(n, a), Within(n, b));
  }
}
