/** Clause and section matching (packages/diff_engine/matching.py): the padded square assignment
    problem that decides which old item pairs with which new one, and the greedy baseline. */
module Matching {
  import opened Sorting
  import opened GreedyPairs
  import opened Permutations

  /** The source's "cost no optimal assignment will ever choose". */
  const FORBIDDEN := 1000000.0

  datatype Pair = Pair(edge: Edge, similarity: real)

  datatype Assignment = Assignment(pairs: seq<Pair>, unmatchedOld: seq<nat>, unmatchedNew: seq<nat>)

  function Edges(pairs: seq<Pair>): seq<Edge> {
    seq(|pairs|, k requires 0 <= k < |pairs| => pairs[k].edge)
  }

  predicate Allowed(c: Costs, tau: real, e: Edge) {
    e.left < c.rows && e.right < c.cols && c.at(e.left, e.right) < 1.0 - tau
  }

  /** A one-to-one matching over cells above the threshold, with everything else left unmatched. */
  ghost predicate Valid(c: Costs, tau: real, a: Assignment) {
    var es := Edges(a.pairs);
    && OneToOne(es)
    && (forall k :: 0 <= k < |es| ==> Allowed(c, tau, es[k]))
    && (forall k :: 0 <= k < |es| ==> a.pairs[k].similarity == 1.0 - c.at(es[k].left, es[k].right))
    && a.unmatchedOld == Others(c.rows, Lefts(es))
    && a.unmatchedNew == Others(c.cols, Rights(es))
  }

  // --- the objective ---

  function CellSum(c: Costs, es: seq<Edge>): real {
    if es == [] then 0.0
    else CellSum(c, es[..|es| - 1]) + c.at(es[|es| - 1].left, es[|es| - 1].right)
  }

  /** `k` times `x`, by addition, to keep the sums below linear. */
  function Times(x: real, k: nat): (r: real)
    ensures x >= 0.0 ==> r >= 0.0
  {
    if k == 0 then 0.0 else Times(x, k - 1) + x
  }

  function Total(c: Costs, tau: real, a: Assignment): real {
    CellSum(c, Edges(a.pairs)) + Times(1.0 - tau, |a.unmatchedOld| + |a.unmatchedNew|)
  }

  method AssignmentCost(cost: array2<real>, a: Assignment, tau: real) returns (total: real)
    requires forall p :: p in a.pairs ==> p.edge.left < cost.Length0 && p.edge.right < cost.Length1
    ensures total == Total(View(cost), tau, a)
  {
    var nullCost := 1.0 - tau;
    total := 0.0;
    ghost var es := Edges(a.pairs);
    assert CellSum(View(cost), es[..0]) == 0.0;
    hide CellSum;
    for k := 0 to |a.pairs|
      invariant total == CellSum(View(cost), es[..k])
    {
      var e := a.pairs[k].edge;
      assert a.pairs[k] in a.pairs;
      total := total + cost[e.left, e.right];
      CellSumStep(View(cost), es, k);
    }
    assert Edges(a.pairs)[..|a.pairs|] == Edges(a.pairs);
    total := total + nullCost * (|a.unmatchedOld| + |a.unmatchedNew|) as real;
    TimesIsProduct(nullCost, |a.unmatchedOld| + |a.unmatchedNew|);
  }

  /** What a pair saves against leaving both of its items unmatched. */
  ghost function Saving(c: Costs, tau: real): Edge -> real {
    (e: Edge) => 2.0 * (1.0 - tau) - c.at(e.left, e.right)
  }

  lemma CellSumStep(c: Costs, es: seq<Edge>, k: nat)
    requires k < |es|
    ensures CellSum(c, es[..k + 1]) == CellSum(c, es[..k]) + c.at(es[k].left, es[k].right)
  {
    assert es[..k + 1][..k] == es[..k];
  }

  lemma {:induction false} TimesIsProduct(x: real, k: nat)
    ensures Times(x, k) == x * k as real
  {
    if k == 0 {
    } else {
      TimesIsProduct(x, k - 1);
      assert x * k as real == x * (k - 1) as real + x;
    }
  }

  lemma {:induction false} TimesAdd(x: real, a: nat, b: nat)
    ensures Times(x, a + b) == Times(x, a) + Times(x, b)
  {
    if b == 0 {
    } else {
      TimesAdd(x, a, b - 1);
    }
  }

  lemma {:induction false} SavingSum(c: Costs, tau: real, es: seq<Edge>)
    ensures Weight(Saving(c, tau), es)
            == Times(1.0 - tau, |es|) + Times(1.0 - tau, |es|) - CellSum(c, es)
  {
    if es == [] {
    } else {
      SavingSum(c, tau, es[..|es| - 1]);
    }
  }

  lemma UnmatchedCounts(c: Costs, tau: real, es: seq<Edge>)
    requires OneToOne(es) && forall k :: 0 <= k < |es| ==> Allowed(c, tau, es[k])
    ensures |Others(c.rows, Lefts(es))| == c.rows - |es|
    ensures |Others(c.cols, Rights(es))| == c.cols - |es|
  {
    SidesInRange(c, tau, es);
    SideCounts(es);
    OthersCount(c.rows, Lefts(es));
    OthersCount(c.cols, Rights(es));
  }

  lemma ValidTotal(c: Costs, tau: real, a: Assignment)
    requires Valid(c, tau, a)
    ensures var es := Edges(a.pairs);
            && |es| <= c.rows && |es| <= c.cols
            && Total(c, tau, a) == CellSum(c, es) + Times(1.0 - tau, c.rows - |es|) + Times(1.0 - tau, c.cols - |es|)
  {
    hide CellSum, Times, Edges, Others;
    UnmatchedCounts(c, tau, Edges(a.pairs));
    TimesAdd(1.0 - tau, |a.unmatchedOld|, |a.unmatchedNew|);
  }

  /** The objective is the all-unmatched cost less the savings of the pairs. */
  lemma TotalIsSaving(c: Costs, tau: real, a: Assignment)
    requires Valid(c, tau, a)
    ensures Total(c, tau, a)
            == Times(1.0 - tau, c.rows + c.cols) - Weight(Saving(c, tau), Edges(a.pairs))
  {
    hide *;
    var es := Edges(a.pairs);
    ValidTotal(c, tau, a);
    SavingSum(c, tau, es);
    TimesAdd(1.0 - tau, c.rows - |es|, |es|);
    TimesAdd(1.0 - tau, c.cols - |es|, |es|);
    TimesAdd(1.0 - tau, c.rows, c.cols);
  }

  lemma {:induction false} SidesInRange(c: Costs, tau: real, es: seq<Edge>)
    requires forall k :: 0 <= k < |es| ==> Allowed(c, tau, es[k])
    ensures forall x :: x in Lefts(es) ==> x < c.rows
    ensures forall x :: x in Rights(es) ==> x < c.cols
  {
    if es == [] {
    } else {
      SidesInRange(c, tau, es[..|es| - 1]);
    }
  }

  // --- the padded problem ---

  /** The square table of size rows + cols: thresholded real cells, a personal null column for each
      old item, a personal null row for each new item, and a free block between the dummies. */
  function Padded(c: Costs, tau: real): Costs {
    var m, n := c.rows, c.cols;
    Costs(m + n, m + n, (r: nat, col: nat) =>
      if r < m && col < n then (if c.at(r, col) < 1.0 - tau then c.at(r, col) else FORBIDDEN)
      else if r < m then (if col == n + r then 1.0 - tau else FORBIDDEN)
      else if col < n then (if r == m + col then 1.0 - tau else FORBIDDEN)
      else 0.0)
  }

  /** The pairs read off the first `k` rows of a solution. */
  function Decode(c: Costs, tau: real, p: seq<nat>, k: nat): (es: seq<Edge>)
    requires k <= |p|
    ensures |es| <= k
  {
    if k == 0 then []
    else
      var e := Edge(k - 1, p[k - 1]);
      if Allowed(c, tau, e) then Decode(c, tau, p, k - 1) + [e] else Decode(c, tau, p, k - 1)
  }

  function Scored(c: Costs, es: seq<Edge>): seq<Pair> {
    seq(|es|, k requires 0 <= k < |es| => Pair(es[k], 1.0 - c.at(es[k].left, es[k].right)))
  }

  /** The assignment over the pairs `es`: similarities attached, everything else unmatched. */
  function Complete(c: Costs, es: seq<Edge>): Assignment {
    Assignment(Scored(c, es), Others(c.rows, Lefts(es)), Others(c.cols, Rights(es)))
  }

  lemma CompleteValid(c: Costs, tau: real, es: seq<Edge>)
    requires OneToOne(es) && forall k :: 0 <= k < |es| ==> Allowed(c, tau, es[k])
    ensures Edges(Complete(c, es).pairs) == es && Valid(c, tau, Complete(c, es))
  {
    assert Edges(Complete(c, es).pairs) == es;
  }

  /** Decoded pairs come from allowed cells in row order. */
  lemma {:induction false} DecodeRows(c: Costs, tau: real, p: seq<nat>, k: nat)
    requires k <= |p| && Injective(p)
    ensures var es := Decode(c, tau, p, k);
            && OneToOne(es)
            && forall i :: 0 <= i < |es| ==>
                 es[i].left < k && es[i].right == p[es[i].left] && Allowed(c, tau, es[i])
  {
    if k == 0 {
    } else {
      DecodeRows(c, tau, p, k - 1);
    }
  }

  ghost predicate Feeds(c: Costs, tau: real, p: seq<nat>, i: nat, j: nat)
    requires i < |p|
  {
    p[i] == j && Allowed(c, tau, Edge(i, j))
  }

  /** ... and a column is decoded exactly when its row's cell is allowed. */
  lemma {:induction false} DecodeColumns(c: Costs, tau: real, p: seq<nat>, k: nat, j: nat)
    requires k <= |p|
    ensures j in Rights(Decode(c, tau, p, k)) <==> exists i: nat :: i < k && Feeds(c, tau, p, i, j)
  {
    hide Allowed;
    if k == 0 {
    } else {
      DecodeColumns(c, tau, p, k - 1, j);
      var t, e := Decode(c, tau, p, k - 1), Edge(k - 1, p[k - 1]);
      assert Feeds(c, tau, p, k - 1, j) <==> Allowed(c, tau, e) && p[k - 1] == j;
      if Allowed(c, tau, e) {
        assert (t + [e])[..|t|] == t;
        assert j in Rights(t + [e]) <==> j in Rights(t) || j == p[k - 1];
      }
    }
  }

  // --- a matching costs what its padded permutation costs ---

  function NullPermutation(m: nat, n: nat): seq<nat> {
    seq(m + n, r requires 0 <= r < m + n => if r < m then n + r else r - m)
  }

  /** The permutation that realises a matching: each pair swaps its two null columns away. */
  function Encode(c: Costs, tau: real, es: seq<Edge>): (p: seq<nat>)
    requires forall k :: 0 <= k < |es| ==> Allowed(c, tau, es[k])
    ensures |p| == c.rows + c.cols
  {
    if es == [] then NullPermutation(c.rows, c.cols)
    else
      var e := es[|es| - 1];
      assert Allowed(c, tau, e);
      Encode(c, tau, es[..|es| - 1])[e.left := e.right][c.rows + e.right := c.cols + e.left]
  }

  lemma {:induction false} NullCost(c: Costs, tau: real, k: nat)
    requires k <= c.rows + c.cols
    ensures PermCost(Padded(c, tau), NullPermutation(c.rows, c.cols), k) == Times(1.0 - tau, k)
  {
    if k == 0 {
    } else {
      NullCost(c, tau, k - 1);
    }
  }

  /** Items outside `lefts` and `rights` still sit at their own null. */
  ghost predicate Idle(c: Costs, p: seq<nat>, lefts: set<nat>, rights: set<nat>) {
    && |p| == c.rows + c.cols
    && (forall i: nat :: i < c.rows && i !in lefts ==> p[i] == c.cols + i)
    && (forall j: nat :: j < c.cols && j !in rights ==> p[c.rows + j] == j)
  }

  /** `p` is a solution of the padded problem that costs what the matching `es` costs. */
  ghost predicate Realises(c: Costs, tau: real, p: seq<nat>, es: seq<Edge>) {
    && IsPermutation(p, c.rows + c.cols)
    && Idle(c, p, Lefts(es), Rights(es))
    && PermCost(Padded(c, tau), p, c.rows + c.cols)
       == Times(1.0 - tau, c.rows + c.cols) - Weight(Saving(c, tau), es)
  }

  lemma NullRealises(c: Costs, tau: real)
    ensures Realises(c, tau, NullPermutation(c.rows, c.cols), [])
  {
    NullCost(c, tau, c.rows + c.cols);
  }

  lemma PaddedPair(c: Costs, tau: real, e: Edge)
    requires Allowed(c, tau, e)
    ensures var big, m, n := Padded(c, tau), c.rows, c.cols;
            && big.at(e.left, n + e.left) == big.at(m + e.right, e.right) == 1.0 - tau
            && big.at(e.left, e.right) == c.at(e.left, e.right)
            && big.at(m + e.right, n + e.left) == 0.0
  {
  }

  lemma EncodeStep(c: Costs, tau: real, p: seq<nat>, t: seq<Edge>, e: Edge)
    requires Realises(c, tau, p, t) && Allowed(c, tau, e) && !Blocked(t, e)
    ensures Realises(c, tau, p[e.left := e.right][c.rows + e.right := c.cols + e.left], t + [e])
  {
    hide Weight, PermCost, Padded, Times, Blocked, IsPermutation;
    var n, q := c.rows + c.cols, p[e.left := e.right][c.rows + e.right := c.cols + e.left];
    BlockedBySides(t, e);
    assert (t + [e])[..|t|] == t;
    assert p[e.left] == c.cols + e.left && p[c.rows + e.right] == e.right;
    SwapPermutation(p, n, e.left, c.rows + e.right);
    SwapCost(Padded(c, tau), p, n, e.left, c.rows + e.right);
    PaddedPair(c, tau, e);
    WeightSnoc(Saving(c, tau), t, e);
  }

  lemma {:induction false} EncodeCost(c: Costs, tau: real, es: seq<Edge>)
    requires OneToOne(es) && forall k :: 0 <= k < |es| ==> Allowed(c, tau, es[k])
    ensures Realises(c, tau, Encode(c, tau, es), es)
  {
    hide Realises;
    if es == [] {
      NullRealises(c, tau);
    } else {
      var t, e := es[..|es| - 1], es[|es| - 1];
      assert es == t + [e];
      EncodeCost(c, tau, t);
      EncodeStep(c, tau, Encode(c, tau, t), t, e);
    }
  }

  // --- a permutation costs at least what its decoded matching costs ---

  /** The columns in `u` that the first `k` rows take. */
  ghost function Taken(p: seq<nat>, k: nat, u: set<nat>): set<nat>
    requires k <= |p|
  {
    if k == 0 then {}
    else Taken(p, k - 1, u) + (if p[k - 1] in u then {p[k - 1]} else {})
  }

  lemma {:induction false} TakenMembers(p: seq<nat>, k: nat, u: set<nat>, x: nat)
    requires k <= |p|
    ensures x in Taken(p, k, u) <==> x in u && x in p[..k]
  {
    if k == 0 {
    } else {
      TakenMembers(p, k - 1, u, x);
      assert p[..k] == p[..k - 1] + [p[k - 1]];
    }
  }

  /** What row `r` must at least pay: its decoded cell or its own null, ... */
  ghost function RowCharge(c: Costs, tau: real, p: seq<nat>, r: nat): real
    requires r < |p|
  {
    if r >= c.rows then 0.0
    else if Allowed(c, tau, Edge(r, p[r])) then c.at(r, p[r]) else 1.0 - tau
  }

  /** ... and the null of the unmatched new item whose column it takes. */
  ghost function Charge(c: Costs, tau: real, p: seq<nat>, r: nat, u: set<nat>): real
    requires r < |p|
  {
    RowCharge(c, tau, p, r) + if p[r] in u then 1.0 - tau else 0.0
  }

  ghost predicate UnmatchedColumns(c: Costs, tau: real, p: seq<nat>, u: set<nat>)
    requires |p| == c.rows + c.cols
  {
    forall j: nat :: j in u <==>
      j < c.cols && !(exists i: nat :: i < c.rows && Feeds(c, tau, p, i, j))
  }

  lemma RowPays(c: Costs, tau: real, p: seq<nat>, r: nat, u: set<nat>)
    requires IsPermutation(p, c.rows + c.cols) && r < c.rows + c.cols
    requires 2.0 * (1.0 - tau) <= FORBIDDEN && UnmatchedColumns(c, tau, p, u)
    ensures Padded(c, tau).at(r, p[r]) >= Charge(c, tau, p, r, u)
  {
    var j := p[r];
    if r < c.rows && Allowed(c, tau, Edge(r, j)) {
      assert Feeds(c, tau, p, r, j);
      assert j !in u;
    }
    if r >= c.rows && r == c.rows + j {
      assert forall i: nat :: i < c.rows ==> p[i] != j;
      assert j in u;
    }
  }

  ghost function UnmatchedRows(c: Costs, tau: real, p: seq<nat>, k: nat): (r: nat)
    requires k <= |p|
    ensures r + |Decode(c, tau, p, k)| == if k < c.rows then k else c.rows
  {
    if k == 0 then 0
    else UnmatchedRows(c, tau, p, k - 1)
         + (if k <= c.rows && !Allowed(c, tau, Edge(k - 1, p[k - 1])) then 1 else 0)
  }

  /** The least the first `k` rows can cost: cells decoded, nulls of the rows left unmatched, nulls
      of the unmatched columns they take. */
  ghost function Floor(c: Costs, tau: real, p: seq<nat>, k: nat, u: set<nat>): real
    requires k <= |p|
  {
    CellSum(c, Decode(c, tau, p, k))
    + Times(1.0 - tau, UnmatchedRows(c, tau, p, k)) + Times(1.0 - tau, |Taken(p, k, u)|)
  }

  lemma TakenStep(p: seq<nat>, k: nat, u: set<nat>)
    requires Injective(p) && 0 < k <= |p|
    ensures |Taken(p, k, u)| == |Taken(p, k - 1, u)| + if p[k - 1] in u then 1 else 0
  {
    TakenMembers(p, k - 1, u, p[k - 1]);
  }

  lemma CellStep(c: Costs, tau: real, p: seq<nat>, k: nat)
    requires 0 < k <= |p|
    ensures CellSum(c, Decode(c, tau, p, k)) + Times(1.0 - tau, UnmatchedRows(c, tau, p, k))
            == CellSum(c, Decode(c, tau, p, k - 1)) + Times(1.0 - tau, UnmatchedRows(c, tau, p, k - 1))
               + RowCharge(c, tau, p, k - 1)
  {
    var t, e := Decode(c, tau, p, k - 1), Edge(k - 1, p[k - 1]);
    assert CellSum(c, t + [e]) == CellSum(c, t) + c.at(e.left, e.right) by {
      assert (t + [e])[..|t|] == t;
    }
  }

  lemma FloorStep(c: Costs, tau: real, p: seq<nat>, k: nat, u: set<nat>)
    requires Injective(p) && 0 < k <= |p|
    ensures Floor(c, tau, p, k, u) == Floor(c, tau, p, k - 1, u) + Charge(c, tau, p, k - 1, u)
  {
    TakenStep(p, k, u);
    CellStep(c, tau, p, k);
  }

  /** Row by row, a permutation costs at least its floor. */
  lemma {:induction false} DecodeCost(c: Costs, tau: real, p: seq<nat>, k: nat, u: set<nat>)
    requires IsPermutation(p, c.rows + c.cols) && k <= c.rows + c.cols
    requires 2.0 * (1.0 - tau) <= FORBIDDEN && UnmatchedColumns(c, tau, p, u)
    ensures PermCost(Padded(c, tau), p, k) >= Floor(c, tau, p, k, u)
  {
    hide UnmatchedColumns, Padded, Charge;
    if k == 0 {
      assert Decode(c, tau, p, 0) == [];
    } else {
      hide Floor;
      DecodeCost(c, tau, p, k - 1, u);
      RowPays(c, tau, p, k - 1, u);
      FloorStep(c, tau, p, k, u);
    }
  }

  lemma AllColumnsTaken(p: seq<nat>, n: nat, u: set<nat>)
    requires IsPermutation(p, n) && forall x :: x in u ==> x < n
    ensures Taken(p, n, u) == u
  {
    PermutationOnto(p, n);
    assert p[..n] == p;
    forall x: nat ensures x in Taken(p, n, u) <==> x in u {
      TakenMembers(p, n, u, x);
    }
  }

  /** The new items a decoded solution leaves unmatched. */
  ghost function Leftover(c: Costs, es: seq<Edge>): (u: set<nat>)
    ensures forall j: nat :: j in u <==> j < c.cols && j !in Rights(es)
  {
    set j | j in Below(c.cols) && j !in Rights(es)
  }

  lemma LeftoverUnmatched(c: Costs, tau: real, p: seq<nat>)
    requires IsPermutation(p, c.rows + c.cols)
    ensures UnmatchedColumns(c, tau, p, Leftover(c, Decode(c, tau, p, c.rows + c.cols)))
  {
    var n := c.rows + c.cols;
    forall j: nat | j < c.cols
      ensures j in Rights(Decode(c, tau, p, n)) <==> exists i: nat :: i < c.rows && Feeds(c, tau, p, i, j)
    {
      DecodeColumns(c, tau, p, n, j);
      assert forall i: nat :: i < n && Feeds(c, tau, p, i, j) ==> i < c.rows;
    }
  }

  lemma DecodedValid(c: Costs, tau: real, p: seq<nat>)
    requires IsPermutation(p, c.rows + c.cols)
    ensures var es := Decode(c, tau, p, c.rows + c.cols);
            Edges(Complete(c, es).pairs) == es && Valid(c, tau, Complete(c, es))
  {
    DecodeRows(c, tau, p, c.rows + c.cols);
    CompleteValid(c, tau, Decode(c, tau, p, c.rows + c.cols));
  }

  lemma LeftoverCount(c: Costs, tau: real, es: seq<Edge>)
    requires OneToOne(es) && forall k :: 0 <= k < |es| ==> Allowed(c, tau, es[k])
    ensures |Leftover(c, es)| == c.cols - |es|
  {
    SidesInRange(c, tau, es);
    SideCounts(es);
    assert Below(c.cols) == Leftover(c, es) + Rights(es);
  }

  lemma FloorIsTotal(c: Costs, tau: real, p: seq<nat>, u: set<nat>)
    requires IsPermutation(p, c.rows + c.cols)
    requires u == Leftover(c, Decode(c, tau, p, c.rows + c.cols))
    ensures Floor(c, tau, p, c.rows + c.cols, u)
            == Total(c, tau, Complete(c, Decode(c, tau, p, c.rows + c.cols)))
  {
    hide Valid, Decode, Taken, Times, CellSum, Total, Leftover, Others, Complete, Edges;
    var n := c.rows + c.cols;
    var es := Decode(c, tau, p, n);
    assert Taken(p, n, u) == u by {
      AllColumnsTaken(p, n, u);
    }
    assert |u| == c.cols - |es| by {
      DecodeRows(c, tau, p, n);
      LeftoverCount(c, tau, es);
    }
    DecodedValid(c, tau, p);
    ValidTotal(c, tau, Complete(c, es));
  }

  /** A solution of the padded problem never costs less than the matching it decodes to. */
  lemma DecodedTotal(c: Costs, tau: real, p: seq<nat>)
    requires IsPermutation(p, c.rows + c.cols) && 2.0 * (1.0 - tau) <= FORBIDDEN
    ensures Total(c, tau, Complete(c, Decode(c, tau, p, c.rows + c.cols)))
            <= PermCost(Padded(c, tau), p, c.rows + c.cols)
  {
    hide Decode, UnmatchedColumns, Floor, Total, Complete, Padded, PermCost, Leftover;
    var n := c.rows + c.cols;
    var u := Leftover(c, Decode(c, tau, p, n));
    LeftoverUnmatched(c, tau, p);
    DecodeCost(c, tau, p, n, u);
    FloorIsTotal(c, tau, p, u);
  }

  /** Every cheapest solution of the padded problem decodes to a matching that no other valid
      matching beats: for any cost table, of any size, under any threshold whose doubled null cost
      does not exceed the forbidden one. */
  lemma ReductionOptimal(c: Costs, tau: real, p: seq<nat>)
    requires Cheapest(Padded(c, tau), p, c.rows + c.cols)
    requires 2.0 * (1.0 - tau) <= 1000000.0
    ensures var a := Complete(c, Decode(c, tau, p, c.rows + c.cols));
            && Valid(c, tau, a)
            && Total(c, tau, a) == PermCost(Padded(c, tau), p, c.rows + c.cols)
            && forall b :: Valid(c, tau, b) ==> Total(c, tau, a) <= Total(c, tau, b)
  {
    var a := Complete(c, Decode(c, tau, p, c.rows + c.cols));
    DecodedTotal(c, tau, p);
    DecodedValid(c, tau, p);
    forall b | Valid(c, tau, b)
      ensures PermCost(Padded(c, tau), p, c.rows + c.cols) <= Total(c, tau, b)
    {
      EncodeCost(c, tau, Edges(b.pairs));
      TotalIsSaving(c, tau, b);
    }
  }

  ghost predicate Optimal(c: Costs, tau: real, a: Assignment) {
    Valid(c, tau, a) && forall b :: Valid(c, tau, b) ==> Total(c, tau, a) <= Total(c, tau, b)
  }

  /** The bound on the null cost is needed: beyond it, in this table, a solution may prefer one
      forbidden cell to two nulls. */
  function DearTable(tau: real): Costs {
    Costs(2, 2, (i: nat, j: nat) =>
      if i != j then ((1.0 - tau) + FORBIDDEN / 2.0) / 2.0 else if i == 0 then 0.0 else 1.0 - tau)
  }

  lemma NullTooDear(tau: real, p: seq<nat>)
    requires 2.0 * (1.0 - tau) > 1000000.0 && Cheapest(Padded(DearTable(tau), tau), p, 4)
    ensures !Optimal(DearTable(tau), tau, Complete(DearTable(tau), Decode(DearTable(tau), tau, p, 4)))
  {
    var c, crossed := DearTable(tau), [Edge(0, 1), Edge(1, 0)];
    DearCosts(tau, p);
    assert IsPermutation([0, 1, 2, 3], 4);
    if !(p[0] == 1 && p[1] == 0) {
      hide Cheapest, Total, Valid, Decode, Complete, Padded, PermCost;
      var es := Decode(c, tau, p, 4);
      DecodedValid(c, tau, p);
      ValidTotal(c, tau, Complete(c, es));
      DearDecode(tau, p);
      DearCrossed(tau);
      TimesIsProduct(1.0 - tau, 2 - |es|);
    }
  }

  lemma DearCosts(tau: real, p: seq<nat>)
    requires 2.0 * (1.0 - tau) > FORBIDDEN && IsPermutation(p, 4)
    ensures PermCost(Padded(DearTable(tau), tau), [0, 1, 2, 3], 4) == FORBIDDEN
    ensures p[0] == 1 && p[1] == 0 ==> PermCost(Padded(DearTable(tau), tau), p, 4) > FORBIDDEN
  {
    var big := Padded(DearTable(tau), tau);
    PermCostUnfold(big, [0, 1, 2, 3]);
    PermCostUnfold(big, p);
  }

  lemma PermCostUnfold(c: Costs, p: seq<nat>)
    requires |p| == 4
    ensures PermCost(c, p, 4) == c.at(0, p[0]) + c.at(1, p[1]) + c.at(2, p[2]) + c.at(3, p[3])
  {
    assert PermCost(c, p, 1) == PermCost(c, p, 0) + c.at(0, p[0]);
    assert PermCost(c, p, 2) == PermCost(c, p, 1) + c.at(1, p[1]);
    assert PermCost(c, p, 3) == PermCost(c, p, 2) + c.at(2, p[2]);
    assert PermCost(c, p, 4) == PermCost(c, p, 3) + c.at(3, p[3]);
  }

  lemma DearCrossed(tau: real)
    requires 2.0 * (1.0 - tau) > FORBIDDEN
    ensures var a := Complete(DearTable(tau), [Edge(0, 1), Edge(1, 0)]);
            Valid(DearTable(tau), tau, a) && Total(DearTable(tau), tau, a) < 2.0 * (1.0 - tau)
  {
    var c, crossed := DearTable(tau), [Edge(0, 1), Edge(1, 0)];
    CompleteValid(c, tau, crossed);
    ValidTotal(c, tau, Complete(c, crossed));
    assert crossed[..1] == [Edge(0, 1)];
  }

  lemma DearDecode(tau: real, p: seq<nat>)
    requires 2.0 * (1.0 - tau) > FORBIDDEN && IsPermutation(p, 4)
    requires !(p[0] == 1 && p[1] == 0)
    ensures var es := Decode(DearTable(tau), tau, p, 4);
            |es| <= 1 && CellSum(DearTable(tau), es) >= 0.0
  {
    var c := DearTable(tau);
    assert !Allowed(c, tau, Edge(1, 1));
    assert Decode(c, tau, p, 4) == Decode(c, tau, p, 3) == Decode(c, tau, p, 2);
  }

  /** The padded array: real cells kept or forbidden, then the two diagonals of nulls, then the
      free block. */
  method Pad(cost: array2<real>, tau: real) returns (big: array2<real>)
    ensures fresh(big) && big.Length0 == big.Length1 == cost.Length0 + cost.Length1
    ensures forall r, k :: 0 <= r < big.Length0 && 0 <= k < big.Length0 ==>
              big[r, k] == Padded(View(cost), tau).at(r, k)
  {
    var m, n := cost.Length0, cost.Length1;
    var nullCost, size := 1.0 - tau, m + n;
    ghost var target := Padded(View(cost), tau);
    big := new real[size, size]((_, _) => FORBIDDEN);
    forall i, j | 0 <= i < m && 0 <= j < n {
      big[i, j] := if cost[i, j] < nullCost then cost[i, j] else FORBIDDEN;
    }
    for i := 0 to m
      invariant forall r, k :: 0 <= r < size && 0 <= k < size ==>
                  big[r, k] == if r < i || (r < m && k < n) then target.at(r, k) else FORBIDDEN
    {
      big[i, n + i] := nullCost;
    }
    for j := 0 to n
      invariant forall r, k :: 0 <= r < size && 0 <= k < size ==>
                  big[r, k] == if r < m || k < j then target.at(r, k) else FORBIDDEN
    {
      big[m + j, j] := nullCost;
    }
    forall r, k | m <= r < size && n <= k < size {
      big[r, k] := 0.0;
    }
  }

  lemma ScoredSnoc(c: Costs, es: seq<Edge>, e: Edge)
    ensures Scored(c, es + [e]) == Scored(c, es) + [Pair(e, 1.0 - c.at(e.left, e.right))]
    ensures Lefts(es + [e]) == Lefts(es) + {e.left} && Rights(es + [e]) == Rights(es) + {e.right}
  {
    assert (es + [e])[..|es|] == es;
  }

  /** What is read off the first `k` rows. */
  ghost predicate ReadUpTo(c: Costs, tau: real, p: seq<nat>, k: nat,
                           pairs: seq<Pair>, lefts: set<nat>, rights: set<nat>)
    requires k <= |p|
  {
    var es := Decode(c, tau, p, k);
    pairs == Scored(c, es) && lefts == Lefts(es) && rights == Rights(es)
  }

  lemma ReadStep(c: Costs, tau: real, p: seq<nat>, k: nat, pairs: seq<Pair>, lefts: set<nat>, rights: set<nat>)
    requires k < |p| && ReadUpTo(c, tau, p, k, pairs, lefts, rights)
    ensures var e := Edge(k, p[k]);
            if Allowed(c, tau, e)
            then ReadUpTo(c, tau, p, k + 1, pairs + [Pair(e, 1.0 - c.at(k, p[k]))], lefts + {k}, rights + {p[k]})
            else ReadUpTo(c, tau, p, k + 1, pairs, lefts, rights)
  {
    ScoredSnoc(c, Decode(c, tau, p, k), Edge(k, p[k]));
    hide Scored, Lefts, Rights;
  }

  lemma ReadAll(c: Costs, tau: real, p: seq<nat>, pairs: seq<Pair>, lefts: set<nat>, rights: set<nat>)
    requires ReadUpTo(c, tau, p, |p|, pairs, lefts, rights)
    ensures Assignment(pairs, Others(c.rows, lefts), Others(c.cols, rights)) == Complete(c, Decode(c, tau, p, |p|))
  {
  }

  /** Reads the pairs off a solution; everything else is unmatched. */
  method ReadPairs(cost: array2<real>, tau: real, solution: seq<nat>) returns (a: Assignment)
    requires |solution| == cost.Length0 + cost.Length1
    ensures a == Complete(View(cost), Decode(View(cost), tau, solution, |solution|))
  {
    var m, n := cost.Length0, cost.Length1;
    ghost var c := View(cost);
    var pairs := [];
    var matchedOld: set<nat>, matchedNew: set<nat> := {}, {};
    assert ReadUpTo(c, tau, solution, 0, pairs, matchedOld, matchedNew);
    hide ReadUpTo, View, Others, Complete, Decode;
    for r := 0 to |solution|
      invariant ReadUpTo(c, tau, solution, r, pairs, matchedOld, matchedNew)
    {
      var k := solution[r];
      ReadStep(c, tau, solution, r, pairs, matchedOld, matchedNew);
      if r < m && k < n && cost[r, k] < 1.0 - tau {
        pairs := pairs + [Pair(Edge(r, k), 1.0 - cost[r, k])];
        matchedOld, matchedNew := matchedOld + {r}, matchedNew + {k};
      }
    }
    ReadAll(c, tau, solution, pairs, matchedOld, matchedNew);
    a := Assignment(pairs, Others(m, matchedOld), Others(n, matchedNew));
  }

  lemma PaddedCheapest(c: Costs, tau: real, big: Costs, p: seq<nat>)
    requires FirstCheapest(big, p, c.rows + c.cols)
    requires forall i: nat, j: nat :: i < c.rows + c.cols && j < c.rows + c.cols ==>
               big.at(i, j) == Padded(c, tau).at(i, j)
    ensures FirstCheapest(Padded(c, tau), p, c.rows + c.cols)
  {
    var n := c.rows + c.cols;
    hide Precedes;
    forall q | IsPermutation(q, n)
      ensures PermCost(big, q, n) == PermCost(Padded(c, tau), q, n)
    {
      PermCostSame(big, Padded(c, tau), q, n, n);
    }
  }

  /** The matching that breaking ties by the smallest columns gives. */
  ghost predicate FirstMatching(c: Costs, tau: real, a: Assignment) {
    if c.rows == 0 || c.cols == 0 then a == Complete(c, [])
    else exists p :: DecodesFirst(c, tau, p, a)
  }

  ghost predicate DecodesFirst(c: Costs, tau: real, p: seq<nat>, a: Assignment) {
    FirstCheapest(Padded(c, tau), p, c.rows + c.cols) && a == Complete(c, Decode(c, tau, p, |p|))
  }

  /** The engine's matcher: always a valid matching, and an optimal one unless the null cost is
      more than half the forbidden cost.  With this solver, ties go to the smallest columns. */
  method HungarianMatching(cost: array2<real>, tau: real) returns (a: Assignment)
    ensures Valid(View(cost), tau, a)
    ensures 2.0 * (1.0 - tau) <= 1000000.0 ==> Optimal(View(cost), tau, a)
    ensures FirstMatching(View(cost), tau, a)
  {
    ghost var c := View(cost);
    hide Valid, Optimal, Padded, FirstCheapest, Decode, FirstMatching, Complete, View;
    if cost.Length0 == 0 || cost.Length1 == 0 {
      a := Assignment([], Others(cost.Length0, {}), Others(cost.Length1, {}));
      EmptyBest(c, tau);
      return;
    }
    var big := Pad(cost, tau);
    var solution := LinearSumAssignment(big);
    PaddedCheapest(c, tau, View(big), solution);
    SolutionBest(c, tau, solution);
    a := ReadPairs(cost, tau, solution);
  }

  lemma EmptyBest(c: Costs, tau: real)
    requires c.rows == 0 || c.cols == 0
    ensures var a := Assignment([], Others(c.rows, {}), Others(c.cols, {}));
            Valid(c, tau, a) && Optimal(c, tau, a) && FirstMatching(c, tau, a)
  {
    EmptyOptimal(c, tau);
    OptimalValid(c, tau, Assignment([], Others(c.rows, {}), Others(c.cols, {})));
    hide Valid, Optimal;
  }

  lemma SolutionOptimal(c: Costs, tau: real, p: seq<nat>)
    requires Cheapest(Padded(c, tau), p, c.rows + c.cols) && 2.0 * (1.0 - tau) <= FORBIDDEN
    ensures Optimal(c, tau, Complete(c, Decode(c, tau, p, c.rows + c.cols)))
  {
    hide Valid, Padded, Decode, Complete, Total, Cheapest, PermCost;
    ReductionOptimal(c, tau, p);
  }

  lemma SolutionFirst(c: Costs, tau: real, p: seq<nat>)
    requires FirstCheapest(Padded(c, tau), p, c.rows + c.cols) && c.rows > 0 && c.cols > 0
    requires |p| == c.rows + c.cols
    ensures FirstMatching(c, tau, Complete(c, Decode(c, tau, p, |p|)))
  {
    hide Padded, FirstCheapest, Decode, Complete;
    assert DecodesFirst(c, tau, p, Complete(c, Decode(c, tau, p, |p|)));
  }

  lemma SolutionBest(c: Costs, tau: real, p: seq<nat>)
    requires FirstCheapest(Padded(c, tau), p, c.rows + c.cols) && c.rows > 0 && c.cols > 0
    ensures |p| == c.rows + c.cols
    ensures var a := Complete(c, Decode(c, tau, p, |p|));
            && Valid(c, tau, a) && FirstMatching(c, tau, a)
            && (2.0 * (1.0 - tau) <= FORBIDDEN ==> Optimal(c, tau, a))
  {
    hide *;
    FirstIsCheapest(Padded(c, tau), p, c.rows + c.cols);
    DecodedValid(c, tau, p);
    SolutionFirst(c, tau, p);
    if 2.0 * (1.0 - tau) <= FORBIDDEN {
      SolutionOptimal(c, tau, p);
    }
  }

  lemma FirstIsCheapest(c: Costs, p: seq<nat>, n: nat)
    requires FirstCheapest(c, p, n)
    ensures Cheapest(c, p, n) && IsPermutation(p, n) && |p| == n
  {
  }

  lemma OptimalValid(c: Costs, tau: real, a: Assignment)
    ensures Optimal(c, tau, a) ==> Valid(c, tau, a)
  {
    hide Valid;
  }

  lemma EmptyOptimal(c: Costs, tau: real)
    requires c.rows == 0 || c.cols == 0
    ensures Optimal(c, tau, Assignment([], Others(c.rows, {}), Others(c.cols, {})))
  {
    var a := Assignment([], Others(c.rows, {}), Others(c.cols, {}));
    assert a == Complete(c, []);
    CompleteValid(c, tau, []);
    forall b | Valid(c, tau, b) ensures b == a {
      assert Edges(b.pairs) == [] by {
        assert Edges(b.pairs) != [] ==> Allowed(c, tau, Edges(b.pairs)[0]);
      }
    }
  }
}
