/** Text similarity and matching by similarity (packages/diff_engine/semantic_diff.py). */
module SemanticDiff {
  import opened GreedyPairs
  import opened Matching
  import opened Permutations
  import opened Sorting
  import opened Titles

  predicate WordChar(c: char) {
    'a' <= c <= 'z' || '0' <= c <= '9'
  }

  /** The maximal runs of word characters in `run + s`, where `run` is the run being read. */
  function Words(s: string, run: string): set<string> {
    var done := if run == "" then {} else {run};
    if s == "" then done
    else if WordChar(s[0]) then Words(s[1..], run + [s[0]])
    else done + Words(s[1..], "")
  }

  function Tokens(a: Alphabet, s: string): set<string> {
    Words(NormalizeForMatch(a, s), "")
  }

  function Triples(s: string): set<string> {
    if |s| < 3 then {} else {s[..3]} + Triples(s[1..])
  }

  /** The substrings of length three; a shorter text stands for itself. */
  function Trigrams(s: string): set<string> {
    if |s| >= 3 then Triples(s) else if s == "" then {} else {s}
  }

  /** `s[i..j]` is a run of word characters that neither end can extend. */
  predicate IsRun(s: string, i: nat, j: nat) {
    && i < j <= |s|
    && (forall k :: i <= k < j ==> WordChar(s[k]))
    && (i > 0 ==> !WordChar(s[i - 1]))
    && (j < |s| ==> !WordChar(s[j]))
  }

  ghost predicate HasRun(s: string, w: string) {
    exists i: nat, j: nat :: IsRun(s, i, j) && s[i..j] == w
  }

  predicate AllWord(s: string) {
    forall k :: 0 <= k < |s| ==> WordChar(s[k])
  }

  lemma LoneRun(run: string, w: string)
    requires AllWord(run)
    ensures HasRun(run, w) <==> run != "" && w == run
  {
    if run != "" && w == run {
      assert IsRun(run, 0, |run|) && run[0..|run|] == run;
    }
    if i: nat, j: nat :| IsRun(run, i, j) && run[i..j] == w {
      assert i == 0 && j == |run|;
    }
  }

  lemma SliceAfter(s: string, d: nat, i: nat, j: nat)
    requires i <= j && d + j <= |s|
    ensures s[d..][i..j] == s[i + d..j + d]
  {
    var inner, outer := s[d..][i..j], s[i + d..j + d];
    forall k | 0 <= k < j - i ensures inner[k] == outer[k] {
      assert s[d..][i + k] == s[i + d + k];
    }
    assert inner == outer;
  }

  lemma RunBounds(s: string, i: nat, j: nat)
    requires IsRun(s, i, j)
    ensures i < j <= |s|
  {
  }

  lemma ShiftedRun(s: string, d: nat, i: nat, j: nat)
    requires 0 < d <= |s| && !WordChar(s[d - 1])
    ensures IsRun(s[d..], i, j) <==> IsRun(s, i + d, j + d)
    ensures IsRun(s[d..], i, j) ==> s[d..][i..j] == s[i + d..j + d]
  {
    if IsRun(s, i + d, j + d) {
      assert forall k :: i <= k < j ==> s[d..][k] == s[k + d];
    }
    if IsRun(s[d..], i, j) {
      SliceAfter(s, d, i, j);
      forall k | i + d <= k < j + d ensures WordChar(s[k]) {
        assert s[d..][k - d] == s[k];
      }
    }
  }

  lemma LeadingRun(s: string, n: nat)
    requires 0 < n < |s| && AllWord(s[..n]) && !WordChar(s[n])
    ensures IsRun(s, 0, n) && s[0..n] == s[..n]
  {
    forall k | 0 <= k < n ensures WordChar(s[k]) {
      assert s[..n][k] == s[k];
    }
  }

  lemma FrontRun(s: string, n: nat, i: nat, j: nat)
    requires n < |s| && AllWord(s[..n]) && !WordChar(s[n]) && i <= n && IsRun(s, i, j)
    ensures i == 0 && j == n
  {
    forall k | 0 <= k < n ensures WordChar(s[k]) {
      assert s[..n][k] == s[k];
    }
  }

  /** A character that is not a word character parts the runs before it from those after it. */
  lemma PartedRuns(run: string, s: string, w: string)
    requires AllWord(run) && s != "" && !WordChar(s[0])
    ensures HasRun(run + s, w) <==> (run != "" && w == run) || HasRun(s[1..], w)
  {
    var whole := run + s;
    assert whole[..|run|] == run && whole[|run|] == s[0] && whole[|run| + 1..] == s[1..];
    PartedAt(whole, |run|, w);
  }

  lemma PartedAt(whole: string, n: nat, w: string)
    requires n < |whole| && AllWord(whole[..n]) && !WordChar(whole[n])
    ensures HasRun(whole, w) <==> (n > 0 && w == whole[..n]) || HasRun(whole[n + 1..], w)
  {
    var rest := whole[n + 1..];
    if n > 0 && w == whole[..n] {
      LeadingRun(whole, n);
    }
    if i: nat, j: nat :| IsRun(rest, i, j) && rest[i..j] == w {
      hide IsRun, WordChar, AllWord;
      ShiftedRun(whole, n + 1, i, j);
    }
    if i: nat, j: nat :| IsRun(whole, i, j) && whole[i..j] == w {
      PartedRun(whole, n, i, j);
    }
  }

  lemma PartedRun(whole: string, n: nat, i: nat, j: nat)
    requires n < |whole| && AllWord(whole[..n]) && !WordChar(whole[n]) && IsRun(whole, i, j)
    ensures (n > 0 && whole[i..j] == whole[..n]) || HasRun(whole[n + 1..], whole[i..j])
  {
    RunBounds(whole, i, j);
    if i <= n {
      FrontRun(whole, n, i, j);
    } else {
      hide IsRun, WordChar, AllWord;
      ShiftedRun(whole, n + 1, i - n - 1, j - n - 1);
    }
  }

  lemma {:induction false} WordsRuns(s: string, run: string, w: string)
    requires AllWord(run)
    ensures w in Words(s, run) <==> HasRun(run + s, w)
    decreases |s|
  {
    if s == "" {
      LoneRun(run, w);
      assert run + s == run;
    } else if WordChar(s[0]) {
      WordsRuns(s[1..], run + [s[0]], w);
      assert run + [s[0]] + s[1..] == run + s;
    } else {
      WordsRuns(s[1..], "", w);
      assert "" + s[1..] == s[1..];
      PartedRuns(run, s, w);
    }
  }

  ghost predicate TripleAt(s: string, i: nat, t: string) {
    i + 3 <= |s| && s[i..i + 3] == t
  }

  lemma {:induction false} TriplesAt(s: string, t: string)
    ensures t in Triples(s) <==> exists i: nat :: TripleAt(s, i, t)
  {
    if |s| >= 3 {
      TriplesAt(s[1..], t);
      if i: nat :| TripleAt(s[1..], i, t) {
        assert TripleAt(s, i + 1, t);
      }
      if i: nat :| TripleAt(s, i, t) {
        assert i == 0 || TripleAt(s[1..], i - 1, t);
      }
      assert s[..3] == t ==> TripleAt(s, 0, t);
    }
  }

  /** What similarity compares: the maximal runs of letters and digits of the normalised text, and its stretches
      of three characters, or the text itself when it is shorter than that. */
  lemma ComparedParts(al: Alphabet, s: string, w: string)
    ensures w in Tokens(al, s) <==> HasRun(NormalizeForMatch(al, s), w)
    ensures forall c :: WordChar(c) <==> 97 <= c as int <= 122 || 48 <= c as int <= 57
    ensures w in Trigrams(s) <==> (exists i: nat :: TripleAt(s, i, w)) || (0 < |s| < 3 && w == s)
  {
    assert forall c :: WordChar(c) <==> 97 <= c as int <= 122 || 48 <= c as int <= 57;
    hide Words, NormalizeForMatch, WordChar;
    var norm := NormalizeForMatch(al, s);
    WordsRuns(norm, "", w);
    assert "" + norm == norm;
    TriplesAt(s, w);
  }

  function Jaccard<T(!new)>(a: set<T>, b: set<T>): (r: real)
    ensures 0.0 <= r <= 1.0
    ensures r == 1.0 <==> a == b
    ensures a + b != {} ==> r * |a + b| as real == |a * b| as real
  {
    if a == {} && b == {} then 1.0
    else if a == {} || b == {} then
      assert a * b == {};
      0.0
    else
      Overlap(a, b);
      |a * b| as real / |a + b| as real
  }

  lemma Overlap<T(!new)>(a: set<T>, b: set<T>)
    requires a != {}
    ensures 0 <= |a * b| <= |a + b| && |a + b| > 0
    ensures |a * b| == |a + b| <==> a == b
    ensures 0.0 <= |a * b| as real / |a + b| as real <= 1.0
    ensures |a * b| as real / |a + b| as real == 1.0 <==> |a * b| == |a + b|
  {
    var both, rest := a * b, (a + b) - (a * b);
    assert a + b == both + rest;
    assert rest == {} ==> a == b;
    assert a == b ==> both == a && a + b == a;
    QuotientPart(|both| as real, |a + b| as real);
  }

  lemma QuotientPart(x: real, y: real)
    requires 0.0 <= x <= y && y > 0.0
    ensures 0.0 <= x / y <= 1.0
    ensures x / y == 1.0 <==> x == y
  {
    assert x / y * y == x;
  }

  /** Half token overlap and half trigram overlap. */
  function LexicalSimilarity(al: Alphabet, s: string, t: string): real {
    if s == "" && t == "" then 1.0
    else
      0.5 * Jaccard(Tokens(al, s), Tokens(al, t))
      + 0.5 * Jaccard(Trigrams(NormalizeForMatch(al, s)), Trigrams(NormalizeForMatch(al, t)))
  }

  /** Lexical similarity cannot tell the two texts apart. */
  predicate Alike(al: Alphabet, s: string, t: string) {
    && Tokens(al, s) == Tokens(al, t)
    && Trigrams(NormalizeForMatch(al, s)) == Trigrams(NormalizeForMatch(al, t))
  }

  /** Similarity lies in [0, 1], does not depend on the order of the texts, and is 1 exactly on texts with
      the same words and the same trigrams, so always on equal texts. */
  lemma SimilarityRange(al: Alphabet, s: string, t: string)
    ensures 0.0 <= LexicalSimilarity(al, s, t) <= 1.0
    ensures LexicalSimilarity(al, s, t) == LexicalSimilarity(al, t, s)
    ensures LexicalSimilarity(al, s, t) == 1.0 <==> Alike(al, s, t)
    ensures LexicalSimilarity(al, s, s) == 1.0
    ensures s != "" || t != "" ==>
              LexicalSimilarity(al, s, t) + LexicalSimilarity(al, s, t)
              == Jaccard(Tokens(al, s), Tokens(al, t))
                 + Jaccard(Trigrams(NormalizeForMatch(al, s)), Trigrams(NormalizeForMatch(al, t)))
  {
    hide Tokens, Trigrams, NormalizeForMatch;
    var a, b := Tokens(al, s), Tokens(al, t);
    var c, d := Trigrams(NormalizeForMatch(al, s)), Trigrams(NormalizeForMatch(al, t));
    assert a * b == b * a && a + b == b + a;
    assert c * d == d * c && c + d == d + c;
  }

  type Similarity = (string, string) -> real

  function Lexical(al: Alphabet): Similarity {
    (s: string, t: string) => LexicalSimilarity(al, s, t)
  }

  /** The cost of a pair is what its similarity lacks of 1. */
  ghost predicate Tabulates(c: Costs, xs: seq<string>, ys: seq<string>, sim: Similarity) {
    && c.rows == |xs| && c.cols == |ys|
    && forall i: nat, j: nat :: i < |xs| && j < |ys| ==> c.at(i, j) == 1.0 - sim(xs[i], ys[j])
  }

  method BuildCostMatrix(xs: seq<string>, ys: seq<string>, sim: Similarity) returns (cost: array2<real>)
    ensures fresh(cost) && Tabulates(View(cost), xs, ys, sim)
  {
    cost := new real[|xs|, |ys|]((i, j) => 1.0);
    for i := 0 to |xs|
      invariant forall p, q :: 0 <= p < i && 0 <= q < |ys| ==> cost[p, q] == 1.0 - sim(xs[p], ys[q])
    {
      for j := 0 to |ys|
        invariant forall p, q :: 0 <= p < i && 0 <= q < |ys| ==> cost[p, q] == 1.0 - sim(xs[p], ys[q])
        invariant forall q :: 0 <= q < j ==> cost[i, q] == 1.0 - sim(xs[i], ys[q])
      {
        cost[i, j] := 1.0 - sim(xs[i], ys[j]);
      }
    }
  }

  /** `a` is a best matching of `xs` with `ys` at threshold `tau`. */
  ghost predicate Assigned(xs: seq<string>, ys: seq<string>, sim: Similarity, tau: real, a: Assignment) {
    exists c :: Tabulates(c, xs, ys, sim) && Valid(c, tau, a)
                && (2.0 * (1.0 - tau) <= FORBIDDEN ==> Optimal(c, tau, a))
  }

  /** ... the one that breaking ties by the smallest indices gives. */
  ghost predicate AssignedFirst(xs: seq<string>, ys: seq<string>, sim: Similarity, tau: real, a: Assignment) {
    exists c :: Tabulates(c, xs, ys, sim) && FirstMatching(c, tau, a)
  }

  method MatchTexts(xs: seq<string>, ys: seq<string>, tau: real, sim: Similarity) returns (a: Assignment)
    ensures Assigned(xs, ys, sim, tau, a) && AssignedFirst(xs, ys, sim, tau, a)
  {
    hide Valid, Optimal, FirstMatching;
    var cost := BuildCostMatrix(xs, ys, sim);
    a := HungarianMatching(cost, tau);
    assert Tabulates(View(cost), xs, ys, sim);
  }

  /** With nothing on one side, nothing is matched. */
  lemma NothingAssigned(xs: seq<string>, ys: seq<string>, sim: Similarity, tau: real)
    requires xs == [] || ys == []
    ensures Assigned(xs, ys, sim, tau, Assignment([], Others(|xs|, {}), Others(|ys|, {})))
    ensures AssignedFirst(xs, ys, sim, tau, Assignment([], Others(|xs|, {}), Others(|ys|, {})))
  {
    hide *;
    var c := EmptyCosts(|xs|, |ys|);
    EmptyBest(c, tau);
    EmptyTable(c, xs, ys, sim);
    FirstBy(xs, ys, sim, tau, c, Assignment([], Others(|xs|, {}), Others(|ys|, {})));
    AssignedBy(xs, ys, sim, tau, c, Assignment([], Others(|xs|, {}), Others(|ys|, {})));
  }

  ghost function EmptyCosts(m: nat, n: nat): (c: Costs)
    ensures c.rows == m && c.cols == n
  {
    Costs(m, n, (i: nat, j: nat) => 0.0)
  }

  lemma FirstBy(xs: seq<string>, ys: seq<string>, sim: Similarity, tau: real, c: Costs, a: Assignment)
    requires Tabulates(c, xs, ys, sim) && FirstMatching(c, tau, a)
    ensures AssignedFirst(xs, ys, sim, tau, a)
  {
    hide FirstMatching, Tabulates;
  }

  lemma EdgesOf(pairs: seq<Pair>, i: nat)
    ensures |Edges(pairs)| == |pairs|
    ensures i < |pairs| ==> Edges(pairs)[i] == pairs[i].edge
  {
  }

  lemma EmptyTable(c: Costs, xs: seq<string>, ys: seq<string>, sim: Similarity)
    requires c.rows == |xs| && c.cols == |ys| && (xs == [] || ys == [])
    ensures Tabulates(c, xs, ys, sim)
  {
  }

  lemma AssignedBy(xs: seq<string>, ys: seq<string>, sim: Similarity, tau: real, c: Costs, a: Assignment)
    requires Tabulates(c, xs, ys, sim) && Optimal(c, tau, a)
    ensures Assigned(xs, ys, sim, tau, a)
  {
    OptimalValid(c, tau, a);
    hide Optimal, Valid, Tabulates;
  }

  /** What every matching gives, whatever the similarity: a one-to-one pairing of indices above the
      threshold, with each remaining index listed once, in order. */
  lemma AssignedPartition(xs: seq<string>, ys: seq<string>, sim: Similarity, tau: real, a: Assignment)
    requires Assigned(xs, ys, sim, tau, a)
    ensures var es := Edges(a.pairs);
            && OneToOne(es)
            && (forall k :: 0 <= k < |es| ==>
                  es[k].left < |xs| && es[k].right < |ys|
                  && a.pairs[k].similarity == sim(xs[es[k].left], ys[es[k].right]) > tau)
            && a.unmatchedOld == Others(|xs|, Lefts(es)) && a.unmatchedNew == Others(|ys|, Rights(es))
            && |es| + |a.unmatchedOld| == |xs| && |es| + |a.unmatchedNew| == |ys|
  {
    var c :| Tabulates(c, xs, ys, sim) && Valid(c, tau, a);
    UnmatchedCounts(c, tau, Edges(a.pairs));
    hide Edges, Lefts, Rights, OneToOne;
    assert forall k :: 0 <= k < |Edges(a.pairs)| ==> Allowed(c, tau, Edges(a.pairs)[k]);
  }
}
