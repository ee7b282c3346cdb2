/** Matching a list of texts with itself (packages/diff_engine/matching.py, packages/diff_engine/semantic_diff.py):
    what every best matching does, what some may do, and what breaking ties by the smallest indices does. */
module SelfMatching {
  import opened GreedyPairs
  import opened Matching
  import opened Permutations
  import opened SemanticDiff
  import opened Titles

  // --- every best matching ---

  /** Row `k` with column `p[k]`. */
  function PermEdges(p: seq<nat>, k: nat): (es: seq<Edge>)
    requires k <= |p|
    ensures |es| == k
    ensures forall i :: 0 <= i < k ==> es[i] == Edge(i, p[i])
  {
    if k == 0 then [] else PermEdges(p, k - 1) + [Edge(k - 1, p[k - 1])]
  }

  ghost predicate Free(c: Costs, es: seq<Edge>) {
    forall k :: 0 <= k < |es| ==> c.at(es[k].left, es[k].right) == 0.0
  }

  lemma {:induction false} FreeSum(c: Costs, es: seq<Edge>)
    requires forall k :: 0 <= k < |es| ==> c.at(es[k].left, es[k].right) >= 0.0
    ensures CellSum(c, es) >= 0.0
    ensures CellSum(c, es) == 0.0 <==> Free(c, es)
  {
    if es == [] {
    } else {
      var t := es[..|es| - 1];
      FreeSum(c, t);
      assert forall k :: 0 <= k < |t| ==> es[k] == t[k];
    }
  }

  lemma TimesPositive(x: real, k: nat)
    requires x > 0.0
    ensures Times(x, k) >= 0.0 && (Times(x, k) == 0.0 <==> k == 0)
  {
  }

  /** In a square table without negative costs, a matching costs nothing exactly when it leaves no one
      out and uses only free cells. */
  lemma FreeTotal(c: Costs, tau: real, a: Assignment)
    requires Valid(c, tau, a) && tau < 1.0 && c.rows == c.cols
    requires forall i: nat, j: nat :: i < c.rows && j < c.cols ==> c.at(i, j) >= 0.0
    ensures Total(c, tau, a) >= 0.0
    ensures Total(c, tau, a) == 0.0 <==> Free(c, Edges(a.pairs)) && |Edges(a.pairs)| == c.rows
  {
    var es := Edges(a.pairs);
    ValidTotal(c, tau, a);
    assert forall k :: 0 <= k < |es| ==> Allowed(c, tau, es[k]);
    FreeSum(c, es);
    TimesPositive(1.0 - tau, c.rows - |es|);
    TimesPositive(1.0 - tau, c.cols - |es|);
  }

  /** A permutation over free cells is an optimal matching. */
  lemma FreeOptimal(c: Costs, tau: real, p: seq<nat>)
    requires tau < 1.0 && c.rows == c.cols && IsPermutation(p, c.rows) && Free(c, PermEdges(p, c.rows))
    requires forall i: nat, j: nat :: i < c.rows && j < c.cols ==> c.at(i, j) >= 0.0
    ensures Optimal(c, tau, Complete(c, PermEdges(p, c.rows)))
    ensures Edges(Complete(c, PermEdges(p, c.rows)).pairs) == PermEdges(p, c.rows)
    ensures Total(c, tau, Complete(c, PermEdges(p, c.rows))) == 0.0
  {
    var es := PermEdges(p, c.rows);
    CompleteValid(c, tau, es);
    FreeTotal(c, tau, Complete(c, es));
    hide Valid, Total, Complete;
    forall b | Valid(c, tau, b) ensures Total(c, tau, b) >= 0.0 {
      FreeTotal(c, tau, b);
    }
  }

  function Identity(n: nat): (p: seq<nat>)
    ensures |p| == n && forall i :: 0 <= i < n ==> p[i] == i
  {
    seq(n, i => i)
  }

  /** A list against itself: no cell is negative, and the free cells are those of texts that cannot be
      told apart. */
  ghost predicate SelfTable(al: Alphabet, xs: seq<string>, c: Costs) {
    && c.rows == c.cols == |xs|
    && forall i: nat, j: nat :: i < |xs| && j < |xs| ==>
         c.at(i, j) >= 0.0 && (c.at(i, j) == 0.0 <==> Alike(al, xs[i], xs[j]))
  }

  lemma TabulatesSelf(al: Alphabet, xs: seq<string>, c: Costs)
    requires Tabulates(c, xs, xs, Lexical(al))
    ensures SelfTable(al, xs, c)
  {
    hide LexicalSimilarity, Alike;
    forall i: nat, j: nat | i < |xs| && j < |xs|
      ensures c.at(i, j) >= 0.0 && (c.at(i, j) == 0.0 <==> Alike(al, xs[i], xs[j]))
    {
      SimilarityRange(al, xs[i], xs[j]);
      assert Lexical(al)(xs[i], xs[j]) == LexicalSimilarity(al, xs[i], xs[j]);
    }
  }

  /** A permutation that moves texts only to texts they cannot be told from is a best matching. */
  lemma AlikeOptimal(al: Alphabet, xs: seq<string>, c: Costs, tau: real, p: seq<nat>)
    requires SelfTable(al, xs, c) && tau < 1.0 && IsPermutation(p, |xs|)
    requires forall r :: 0 <= r < |xs| ==> Alike(al, xs[r], xs[p[r]])
    ensures Optimal(c, tau, Complete(c, PermEdges(p, |xs|)))
    ensures Edges(Complete(c, PermEdges(p, |xs|)).pairs) == PermEdges(p, |xs|)
    ensures Total(c, tau, Complete(c, PermEdges(p, |xs|))) == 0.0
  {
    hide Alike, PermEdges, Optimal, Total, Edges, Complete;
    var es := PermEdges(p, |xs|);
    forall k | 0 <= k < |es| ensures c.at(es[k].left, es[k].right) == 0.0 {
    }
    FreeOptimal(c, tau, p);
  }

  lemma IdentityPermutes(n: nat)
    ensures IsPermutation(Identity(n), n)
  {
  }

  lemma AlikeEquivalence(al: Alphabet, s: string, t: string)
    ensures Alike(al, s, s)
    ensures Alike(al, s, t) <==> Alike(al, t, s)
  {
    hide Tokens, Trigrams, NormalizeForMatch;
  }

  /** Matching a list with itself pairs every item, and only with texts it cannot be told from. */
  lemma SelfAssigned(al: Alphabet, xs: seq<string>, tau: real, a: Assignment)
    requires Assigned(xs, xs, Lexical(al), tau, a) && 0.0 <= tau < 1.0
    ensures |a.pairs| == |xs|
    ensures forall k :: 0 <= k < |a.pairs| ==>
              a.pairs[k].edge.left < |xs| && a.pairs[k].edge.right < |xs|
              && Alike(al, xs[a.pairs[k].edge.left], xs[a.pairs[k].edge.right])
  {
    var c :| Tabulates(c, xs, xs, Lexical(al)) && Valid(c, tau, a)
              && (2.0 * (1.0 - tau) <= FORBIDDEN ==> Optimal(c, tau, a));
    TabulatesSelf(al, xs, c);
    IdentityPermutes(|xs|);
    BestIsFree(al, xs, c, tau, a);
    hide Tabulates, LexicalSimilarity, Alike, Optimal, Total;
    assert forall k :: 0 <= k < |a.pairs| ==>
             Edges(a.pairs)[k] == a.pairs[k].edge && Allowed(c, tau, Edges(a.pairs)[k]);
  }

  lemma BestIsFree(al: Alphabet, xs: seq<string>, c: Costs, tau: real, a: Assignment)
    requires SelfTable(al, xs, c) && Optimal(c, tau, a) && tau < 1.0
    ensures Free(c, Edges(a.pairs)) && |Edges(a.pairs)| == |xs|
  {
    hide Alike, IsPermutation, Complete, Total, Edges, PermEdges, Free;
    IdentityPermutes(|xs|);
    forall r | 0 <= r < |xs| ensures Alike(al, xs[r], xs[Identity(|xs|)[r]]) {
      AlikeEquivalence(al, xs[r], xs[r]);
    }
    AlikeOptimal(al, xs, c, tau, Identity(|xs|));
    FreeTotal(c, tau, a);
  }

  function SelfCosts(al: Alphabet, xs: seq<string>): Costs {
    Costs(|xs|, |xs|, (r: nat, k: nat) =>
      if r < |xs| && k < |xs| then 1.0 - LexicalSimilarity(al, xs[r], xs[k]) else 0.0)
  }

  lemma SelfCostsTable(al: Alphabet, xs: seq<string>)
    ensures Tabulates(SelfCosts(al, xs), xs, xs, Lexical(al))
  {
    hide LexicalSimilarity;
  }

  /** Everything in its place but for `i` and `j`, which change places. */
  function Crossing(n: nat, i: nat, j: nat): (p: seq<nat>)
    requires i < n && j < n
    ensures |p| == n && p[i] == j
  {
    Identity(n)[i := j][j := i]
  }

  lemma CrossingAlike(al: Alphabet, xs: seq<string>, i: nat, j: nat)
    requires i < |xs| && j < |xs| && Alike(al, xs[i], xs[j])
    ensures IsPermutation(Crossing(|xs|, i, j), |xs|)
    ensures forall r :: 0 <= r < |xs| ==> Alike(al, xs[r], xs[Crossing(|xs|, i, j)[r]])
  {
    hide Alike;
    forall r | 0 <= r < |xs| ensures Alike(al, xs[r], xs[Crossing(|xs|, i, j)[r]]) {
      AlikeEquivalence(al, xs[r], xs[r]);
      AlikeEquivalence(al, xs[i], xs[j]);
    }
  }

  /** ... and any two texts that cannot be told apart are crossed over by some best matching. */
  lemma CrossedAssigned(al: Alphabet, xs: seq<string>, tau: real, i: nat, j: nat) returns (a: Assignment)
    requires 0.0 <= tau < 1.0 && i < |xs| && j < |xs| && Alike(al, xs[i], xs[j])
    ensures Assigned(xs, xs, Lexical(al), tau, a) && |a.pairs| == |xs|
    ensures a.pairs[i].edge == Edge(i, j)
  {
    hide *;
    var c, p := SelfCosts(al, xs), Crossing(|xs|, i, j);
    SelfCostsTable(al, xs);
    TabulatesSelf(al, xs, c);
    CrossingAlike(al, xs, i, j);
    AlikeOptimal(al, xs, c, tau, p);
    a := Complete(c, PermEdges(p, |xs|));
    AssignedBy(xs, xs, Lexical(al), tau, c, a);
    EdgesOf(a.pairs, i);
  }

  // --- with ties broken by the smallest indices ---

  /** A row of the permutation that realises a matching is given its pair's column. */
  lemma {:induction false} EncodeRows(c: Costs, tau: real, p: seq<nat>, k: nat, r: nat)
    requires r < k <= |p| && forall i :: 0 <= i < k ==> Allowed(c, tau, Edge(i, p[i]))
    ensures Encode(c, tau, PermEdges(p, k))[r] == p[r]
  {
    var t, e := PermEdges(p, k - 1), Edge(k - 1, p[k - 1]);
    assert PermEdges(p, k) == t + [e] && (t + [e])[..k - 1] == t;
    assert Allowed(c, tau, e);
    if r < k - 1 {
      EncodeRows(c, tau, p, k - 1, r);
    }
  }

  lemma {:induction false} CostNotNegative(c: Costs, p: seq<nat>, n: nat, k: nat)
    requires IsPermutation(p, n) && k <= n && forall i: nat, j: nat :: i < n && j < n ==> c.at(i, j) >= 0.0
    ensures PermCost(c, p, k) >= 0.0
  {
    if k == 0 {
    } else {
      CostNotNegative(c, p, n, k - 1);
    }
  }

  lemma PaddedNotNegative(c: Costs, tau: real)
    requires tau <= 1.0 && forall i: nat, j: nat :: i < c.rows && j < c.cols ==> c.at(i, j) >= 0.0
    ensures forall i: nat, j: nat :: i < c.rows + c.cols && j < c.rows + c.cols ==> Padded(c, tau).at(i, j) >= 0.0
  {
  }

  /** Everyone with themselves: a solution of the padded problem that costs nothing. */
  ghost function SelfSolution(c: Costs, tau: real, n: nat): (q: seq<nat>)
    requires forall i :: 0 <= i < n ==> Allowed(c, tau, Edge(i, i))
  {
    Encode(c, tau, PermEdges(Identity(n), n))
  }

  lemma SelfAllowed(al: Alphabet, xs: seq<string>, c: Costs, tau: real)
    requires SelfTable(al, xs, c) && tau < 1.0
    ensures forall i :: 0 <= i < |xs| ==> Alike(al, xs[i], xs[i]) && Allowed(c, tau, Edge(i, i))
  {
    hide Alike;
    forall i | 0 <= i < |xs| ensures Alike(al, xs[i], xs[i]) && Allowed(c, tau, Edge(i, i)) {
      AlikeEquivalence(al, xs[i], xs[i]);
    }
  }

  lemma SelfSolutionRows(c: Costs, tau: real, n: nat, r: nat)
    requires r < n && forall i :: 0 <= i < n ==> Allowed(c, tau, Edge(i, i))
    ensures |SelfSolution(c, tau, n)| > r && SelfSolution(c, tau, n)[r] == r
  {
    hide Allowed;
    EncodeRows(c, tau, Identity(n), n, r);
    assert Allowed(c, tau, Edge(r, r));
    AllowedInside(c, tau, Edge(r, r));
  }

  lemma AllowedInside(c: Costs, tau: real, e: Edge)
    requires Allowed(c, tau, e)
    ensures e.left < c.rows && e.right < c.cols
  {
  }

  lemma OneToOneIdentity(n: nat)
    ensures OneToOne(PermEdges(Identity(n), n))
  {
  }

  lemma SelfSolutionCost(al: Alphabet, xs: seq<string>, c: Costs, tau: real)
    requires SelfTable(al, xs, c) && tau < 1.0
    requires forall i :: 0 <= i < |xs| ==> Alike(al, xs[i], xs[i]) && Allowed(c, tau, Edge(i, i))
    ensures var q := SelfSolution(c, tau, |xs|);
            IsPermutation(q, c.rows + c.cols) && PermCost(Padded(c, tau), q, c.rows + c.cols) == 0.0
  {
    hide Alike, SelfTable, Allowed, PermEdges, Total, Complete, Padded, PermCost, Encode, Weight, Optimal, Valid,
      OneToOne, IsPermutation, Times, Saving;
    var n, es := |xs|, PermEdges(Identity(|xs|), |xs|);
    IdentityPermutes(n);
    OneToOneIdentity(n);
    AlikeOptimal(al, xs, c, tau, Identity(n));
    OptimalValid(c, tau, Complete(c, es));
    EncodeCost(c, tau, es);
    TotalIsSaving(c, tau, Complete(c, es));
  }

  lemma SelfSolutionFree(al: Alphabet, xs: seq<string>, c: Costs, tau: real)
    requires SelfTable(al, xs, c) && tau < 1.0
    ensures forall i :: 0 <= i < |xs| ==> Allowed(c, tau, Edge(i, i))
    ensures var q := SelfSolution(c, tau, |xs|);
            && IsPermutation(q, c.rows + c.cols) && PermCost(Padded(c, tau), q, c.rows + c.cols) == 0.0
            && |q| >= |xs| && forall r :: 0 <= r < |xs| ==> q[r] == r
  {
    SelfAllowed(al, xs, c, tau);
    SelfSolutionCost(al, xs, c, tau);
    assert |SelfSolution(c, tau, |xs|)| == c.rows + c.cols >= |xs|;
    hide *;
    forall r | 0 <= r < |xs| ensures SelfSolution(c, tau, |xs|)[r] == r {
      SelfSolutionRows(c, tau, |xs|, r);
    }
  }

  /** A permutation that comes before one with everyone in their place keeps everyone in theirs. */
  lemma InPlace(p: seq<nat>, q: seq<nat>, n: nat, m: nat)
    requires IsPermutation(p, m) && |q| == m && n <= m && forall r :: 0 <= r < n ==> q[r] == r
    requires p == q || Precedes(p, q)
    ensures forall r :: 0 <= r < n ==> p[r] == r
  {
    if p != q {
      var k: nat :| PrecedesAt(p, q, k);
      assert forall r :: 0 <= r < k ==> p[..k][r] == p[r] && q[..k][r] == q[r];
      if k < n {
        assert p[p[k]] == p[k];
      }
    }
  }

  /** So with ties broken by the smallest columns, a list matched with itself is left in place. */
  lemma FirstInPlace(al: Alphabet, xs: seq<string>, c: Costs, tau: real, p: seq<nat>)
    requires SelfTable(al, xs, c) && 0.0 <= tau < 1.0 && FirstCheapest(Padded(c, tau), p, c.rows + c.cols)
    ensures |p| == 2 * |xs| && forall r :: 0 <= r < |xs| ==> p[r] == r
  {
    SelfSolutionFree(al, xs, c, tau);
    PaddedNotNegative(c, tau);
    hide SelfTable, Padded, PermCost, Precedes, SelfSolution;
    var m, q := c.rows + c.cols, SelfSolution(c, tau, |xs|);
    CostNotNegative(Padded(c, tau), p, m, m);
    InPlace(p, q, |xs|, m);
  }

  lemma {:induction false} DecodeInPlace(c: Costs, tau: real, p: seq<nat>, n: nat, k: nat)
    requires n == c.rows == c.cols && k <= |p| && forall r :: 0 <= r < n && r < |p| ==> p[r] == r
    requires forall i :: 0 <= i < n ==> Allowed(c, tau, Edge(i, i))
    ensures Decode(c, tau, p, k) == PermEdges(Identity(n), if k < n then k else n)
  {
    if k == 0 {
    } else {
      DecodeInPlace(c, tau, p, n, k - 1);
    }
  }

  lemma FirstDecoded(al: Alphabet, xs: seq<string>, c: Costs, tau: real, p: seq<nat>, a: Assignment)
    requires SelfTable(al, xs, c) && 0.0 <= tau < 1.0 && DecodesFirst(c, tau, p, a)
    ensures Edges(a.pairs) == PermEdges(Identity(|xs|), |xs|)
  {
    assert c.rows == c.cols == |xs|;
    hide *;
    DecodesParts(c, tau, p, a);
    FirstInPlace(al, xs, c, tau, p);
    SelfSolutionFree(al, xs, c, tau);
    DecodeInPlace(c, tau, p, |xs|, |p|);
    CompletePairs(c, PermEdges(Identity(|xs|), |xs|));
  }

  lemma DecodesParts(c: Costs, tau: real, p: seq<nat>, a: Assignment)
    requires DecodesFirst(c, tau, p, a)
    ensures FirstCheapest(Padded(c, tau), p, c.rows + c.cols) && a == Complete(c, Decode(c, tau, p, |p|))
  {
  }

  lemma CompletePairs(c: Costs, es: seq<Edge>)
    ensures Edges(Complete(c, es).pairs) == es
  {
  }

  lemma SelfFirst(al: Alphabet, xs: seq<string>, tau: real, a: Assignment)
    requires AssignedFirst(xs, xs, Lexical(al), tau, a) && 0.0 <= tau < 1.0
    ensures |a.pairs| == |xs| && forall k :: 0 <= k < |a.pairs| ==> a.pairs[k].edge == Edge(k, k)
  {
    var c :| Tabulates(c, xs, xs, Lexical(al)) && FirstMatching(c, tau, a);
    assert c.rows == c.cols == |xs|;
    TabulatesSelf(al, xs, c);
    hide Tabulates, Lexical, DecodesFirst, SelfTable;
    if xs == [] {
      CompletePairs(c, []);
    } else {
      var p :| DecodesFirst(c, tau, p, a);
      FirstDecoded(al, xs, c, tau, p, a);
    }
    assert Edges(a.pairs) == PermEdges(Identity(|xs|), |xs|);
    forall k | 0 <= k < |a.pairs| ensures a.pairs[k].edge == Edges(a.pairs)[k] {
    }
  }
}
