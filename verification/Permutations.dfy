/** Square assignment problems: permutations, their cost, and a solver that finds the cheapest. */
module Permutations {

  /** A dense cost table read at (row, column). */
  datatype Costs = Costs(rows: nat, cols: nat, at: (nat, nat) -> real)

  /** The table an array holds. */
  function View(a: array2<real>): (c: Costs)
    reads a
    ensures c.rows == a.Length0 && c.cols == a.Length1
    ensures forall i, j :: 0 <= i < a.Length0 && 0 <= j < a.Length1 ==> c.at(i, j) == a[i, j]
  {
    var s := seq(a.Length0, i requires 0 <= i < a.Length0 reads a =>
                   seq(a.Length1, j requires 0 <= j < a.Length1 reads a => a[i, j]));
    Costs(a.Length0, a.Length1, (i: nat, j: nat) => if i < |s| && j < |s[i]| then s[i][j] else 0.0)
  }

  ghost predicate Injective(p: seq<nat>) {
    forall i, j :: 0 <= i < j < |p| ==> p[i] != p[j]
  }

  /** Row `r` is given column `p[r]`; every column is given out once. */
  ghost predicate IsPermutation(p: seq<nat>, n: nat) {
    && |p| == n
    && (forall r :: 0 <= r < n ==> p[r] < n)
    && Injective(p)
  }

  /** The cost of the first `k` rows of `p`. */
  function PermCost(c: Costs, p: seq<nat>, k: nat): real
    requires k <= |p|
  {
    if k == 0 then 0.0 else PermCost(c, p, k - 1) + c.at(k - 1, p[k - 1])
  }

  ghost predicate Cheapest(c: Costs, p: seq<nat>, n: nat) {
    && IsPermutation(p, n)
    && forall q :: IsPermutation(q, n) ==> PermCost(c, p, n) <= PermCost(c, q, n)
  }

  /** At the first place where the two differ, `p` has the smaller column. */
  ghost predicate Precedes(p: seq<nat>, q: seq<nat>) {
    exists k: nat :: PrecedesAt(p, q, k)
  }

  ghost predicate PrecedesAt(p: seq<nat>, q: seq<nat>, k: nat) {
    k < |p| && k < |q| && p[..k] == q[..k] && p[k] < q[k]
  }

  /** Of the cheapest permutations, the first in the order of columns. */
  ghost predicate FirstCheapest(c: Costs, p: seq<nat>, n: nat) {
    && Cheapest(c, p, n)
    && forall q :: IsPermutation(q, n) && PermCost(c, q, n) == PermCost(c, p, n) ==> p == q || Precedes(p, q)
  }

  function Below(n: nat): (s: set<nat>)
    ensures forall x: nat :: x in s <==> x < n
    ensures |s| == n
  {
    if n == 0 then {} else Below(n - 1) + {n - 1}
  }

  function Values(p: seq<nat>): (s: set<nat>)
    ensures forall x :: x in s <==> x in p
  {
    set x | x in p
  }

  lemma {:induction false} ValuesCount(p: seq<nat>)
    requires Injective(p)
    ensures |Values(p)| == |p|
  {
    if p == [] {
    } else {
      var t := p[..|p| - 1];
      ValuesCount(t);
      assert p[|p| - 1] !in t;
      assert Values(p) == Values(t) + {p[|p| - 1]};
    }
  }

  lemma SubsetSameSize(a: set<nat>, b: set<nat>)
    requires a <= b && |a| == |b|
    ensures a == b
  {
    assert b == a + (b - a);
  }

  /** Every column is reached. */
  lemma PermutationOnto(p: seq<nat>, n: nat)
    requires IsPermutation(p, n)
    ensures forall c: nat :: c < n ==> c in p
  {
    ValuesCount(p);
    SubsetSameSize(Values(p), Below(n));
  }

  lemma {:induction false} PermCostUpdate(c: Costs, p: seq<nat>, k: nat, r: nat, col: nat)
    requires k <= |p| && r < |p|
    ensures PermCost(c, p[r := col], k)
            == PermCost(c, p, k) + if r < k then c.at(r, col) - c.at(r, p[r]) else 0.0
  {
    if k == 0 {
    } else {
      PermCostUpdate(c, p, k - 1, r, col);
    }
  }

  lemma SwapPermutation(p: seq<nat>, n: nat, a: nat, b: nat)
    requires IsPermutation(p, n) && a < n && b < n && a != b
    ensures IsPermutation(p[a := p[b]][b := p[a]], n)
  {
    var q := p[a := p[b]][b := p[a]];
    forall i, j | 0 <= i < j < n ensures q[i] != q[j] {
      var i', j' := if i == a then b else if i == b then a else i, if j == a then b else if j == b then a else j;
      assert q[i] == p[i'] && q[j] == p[j'];
    }
  }

  lemma SwapCost(c: Costs, p: seq<nat>, n: nat, a: nat, b: nat)
    requires |p| == n && a < n && b < n && a != b
    ensures PermCost(c, p[a := p[b]][b := p[a]], n)
            == PermCost(c, p, n) - c.at(a, p[a]) - c.at(b, p[b]) + c.at(a, p[b]) + c.at(b, p[a])
  {
    PermCostUpdate(c, p, n, a, p[b]);
    PermCostUpdate(c, p[a := p[b]], n, b, p[a]);
  }

  lemma {:induction false} PermCostSame(c: Costs, d: Costs, p: seq<nat>, n: nat, k: nat)
    requires |p| == n && k <= n && forall r :: 0 <= r < n ==> p[r] < n
    requires forall i: nat, j: nat :: i < n && j < n ==> c.at(i, j) == d.at(i, j)
    ensures PermCost(c, p, k) == PermCost(d, p, k)
  {
    if k == 0 {
    } else {
      PermCostSame(c, d, p, n, k - 1);
    }
  }

  /** The library's assignment solver, met here by exhaustive search.  Its contract is the cheapest
      permutation; of several, this search returns the first. */
  method LinearSumAssignment(big: array2<real>) returns (p: seq<nat>)
    requires big.Length0 == big.Length1
    ensures Cheapest(View(big), p, big.Length0)
    ensures FirstCheapest(View(big), p, big.Length0)
  {
    p := BestExtension(View(big), big.Length0, []);
  }

  /** `best` costs no more than the permutation `q`, and comes before it if it costs as much. */
  ghost predicate Beats(c: Costs, n: nat, best: seq<nat>, q: seq<nat>)
    requires n <= |best| && n <= |q|
  {
    && PermCost(c, best, n) <= PermCost(c, q, n)
    && (PermCost(c, best, n) == PermCost(c, q, n) ==> best == q || Precedes(best, q))
  }

  method BestExtension(c: Costs, n: nat, prefix: seq<nat>) returns (best: seq<nat>)
    requires |prefix| <= n && Injective(prefix) && forall r :: 0 <= r < |prefix| ==> prefix[r] < n
    ensures IsPermutation(best, n) && prefix <= best
    ensures forall q :: IsPermutation(q, n) && prefix <= q ==> Beats(c, n, best, q)
    decreases n - |prefix|
  {
    hide Precedes, PermCost;
    var k := |prefix|;
    if k == n {
      assert forall q :: |q| == n && prefix <= q ==> q == prefix;
      return prefix;
    }
    var found := false;
    best := [];
    for col := 0 to n
      invariant found ==> IsPermutation(best, n) && prefix <= best && best[k] < col
      invariant forall q :: IsPermutation(q, n) && prefix <= q && q[k] < col ==> found && Beats(c, n, best, q)
      invariant found <==> exists x: nat :: x < col && x !in prefix
    {
      if col !in prefix {
        var candidate := BestExtension(c, n, prefix + [col]);
        ghost var before := best;
        ghost var replaced := !found || PermCost(c, candidate, n) < PermCost(c, before, n);
        if !found || PermCost(c, candidate, n) < PermCost(c, best, n) {
          best := candidate;
        }
        forall q | IsPermutation(q, n) && prefix <= q && q[k] == col ensures Beats(c, n, best, q) {
          assert prefix + [col] <= q;
          assert Beats(c, n, candidate, q);
          if !replaced {
            PrecedesHere(prefix, best, q);
          }
        }
        found := true;
      } else {
        forall q | IsPermutation(q, n) && prefix <= q ensures q[k] != col {
          var r :| 0 <= r < k && prefix[r] == col;
          assert q[r] == col;
        }
      }
    }
    if !found {
      ValuesCount(prefix);
      assert Below(n) <= Values(prefix);
      SubsetSmaller(Below(n), Values(prefix));
    }
  }

  lemma PrecedesHere(prefix: seq<nat>, p: seq<nat>, q: seq<nat>)
    requires prefix <= p && prefix <= q && |prefix| < |p| && |prefix| < |q| && p[|prefix|] < q[|prefix|]
    ensures Precedes(p, q)
  {
    assert PrecedesAt(p, q, |prefix|);
  }

  lemma SubsetSmaller(a: set<nat>, b: set<nat>)
    requires a <= b
    ensures |a| <= |b|
  {
    assert b == a + (b - a);
  }
}
