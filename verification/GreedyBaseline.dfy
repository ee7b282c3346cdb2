/** The greedy matching baseline (packages/diff_engine/matching.py): how far it can fall short. */
module GreedyBaseline {
  import opened Sorting
  import opened GreedyPairs
  import opened Permutations
  import opened Matching

  datatype Cell = Cell(cost: real, edge: Edge)

  predicate NoDearer(a: Cell, b: Cell) {
    a.cost <= b.cost
  }

  /** The first `j` cells of row `i`. */
  function RowCells(c: Costs, i: nat, j: nat): seq<Cell> {
    if j == 0 then [] else RowCells(c, i, j - 1) + [Cell(c.at(i, j - 1), Edge(i, j - 1))]
  }

  /** The cells of the first `i` rows, row by row. */
  function Cells(c: Costs, i: nat): seq<Cell> {
    if i == 0 then [] else Cells(c, i - 1) + RowCells(c, i - 1, c.cols)
  }

  /** The cells below `nullCost`, in the order given. */
  function UnderNull(cells: seq<Cell>, nullCost: real): seq<Edge> {
    if cells == [] then []
    else
      var t, x := UnderNull(cells[..|cells| - 1], nullCost), cells[|cells| - 1];
      if x.cost < nullCost then t + [x.edge] else t
  }

  /** The candidates the baseline looks at, cheapest first, ties in row-major order. */
  function Candidates(c: Costs, tau: real): seq<Edge> {
    UnderNull(SortBy(NoDearer, Cells(c, c.rows)), 1.0 - tau)
  }

  lemma {:induction false} RowCellsMembers(c: Costs, i: nat, j: nat, x: Cell)
    ensures x in RowCells(c, i, j) <==>
            x.edge.left == i && x.edge.right < j && x.cost == c.at(i, x.edge.right)
  {
    if j == 0 {
    } else {
      RowCellsMembers(c, i, j - 1, x);
    }
  }

  lemma {:induction false} CellsMembers(c: Costs, i: nat, x: Cell)
    ensures x in Cells(c, i) <==>
            x.edge.left < i && x.edge.right < c.cols && x.cost == c.at(x.edge.left, x.edge.right)
  {
    if i == 0 {
    } else {
      CellsMembers(c, i - 1, x);
      RowCellsMembers(c, i - 1, c.cols, x);
    }
  }

  lemma {:induction false} UnderNullMembers(cells: seq<Cell>, nullCost: real, e: Edge)
    ensures e in UnderNull(cells, nullCost) <==> exists x :: x in cells && x.edge == e && x.cost < nullCost
  {
    if cells == [] {
    } else {
      var t, last := cells[..|cells| - 1], cells[|cells| - 1];
      UnderNullMembers(t, nullCost, e);
      assert forall x :: x in cells <==> x in t || x == last;
    }
  }

  /** The candidates are exactly the allowed cells. */
  lemma CandidatesMembers(c: Costs, tau: real, e: Edge)
    ensures e in Candidates(c, tau) <==> Allowed(c, tau, e)
  {
    var cells := Cells(c, c.rows);
    UnderNullMembers(SortBy(NoDearer, cells), 1.0 - tau, e);
    CellsMembers(c, c.rows, Cell(c.at(e.left, e.right), e));
    forall x | x in cells ensures Listed(c, x) {
      CellsMembers(c, c.rows, x);
    }
    if Allowed(c, tau, e) {
      assert Cell(c.at(e.left, e.right), e) in SortBy(NoDearer, cells);
    }
  }

  ghost predicate Listed(c: Costs, x: Cell) {
    x.edge.left < c.rows && x.edge.right < c.cols && x.cost == c.at(x.edge.left, x.edge.right)
  }

  lemma {:induction false} UnderNullDescending(c: Costs, tau: real, cells: seq<Cell>)
    requires Sorted(NoDearer, cells) && forall x :: x in cells ==> Listed(c, x)
    ensures Descending(Saving(c, tau), UnderNull(cells, 1.0 - tau))
  {
    if cells == [] {
    } else {
      var t, last := cells[..|cells| - 1], cells[|cells| - 1];
      UnderNullDescending(c, tau, t);
      var es := UnderNull(t, 1.0 - tau);
      assert last in cells;
      forall k | 0 <= k < |es| ensures Saving(c, tau)(es[k]) >= Saving(c, tau)(last.edge) {
        UnderNullMembers(t, 1.0 - tau, es[k]);
        assert es[k] in es;
        var x :| x in t && x.edge == es[k] && x.cost < 1.0 - tau;
        assert x in cells;
        var i :| 0 <= i < |t| && t[i] == x;
        assert NoDearer(cells[i], cells[|cells| - 1]);
      }
    }
  }

  lemma CandidatesDescending(c: Costs, tau: real)
    ensures Descending(Saving(c, tau), Candidates(c, tau))
  {
    var cells := Cells(c, c.rows);
    SortBySorted(NoDearer, cells);
    forall x | x in cells ensures Listed(c, x) {
      CellsMembers(c, c.rows, x);
    }
    UnderNullDescending(c, tau, SortBy(NoDearer, cells));
  }

  lemma CandidatesAllowed(c: Costs, tau: real)
    ensures forall e :: e in Candidates(c, tau) <==> Allowed(c, tau, e)
  {
    forall e ensures e in Candidates(c, tau) <==> Allowed(c, tau, e) {
      CandidatesMembers(c, tau, e);
    }
  }

  /** What the baseline returns. */
  function GreedyAssignment(c: Costs, tau: real): Assignment {
    Complete(c, Greedy(Candidates(c, tau)))
  }

  lemma GreedyValid(c: Costs, tau: real)
    ensures Valid(c, tau, GreedyAssignment(c, tau))
    ensures Edges(GreedyAssignment(c, tau).pairs) == Greedy(Candidates(c, tau))
  {
    CandidatesAllowed(c, tau);
    GreedyOneToOne(Candidates(c, tau));
    var g := Greedy(Candidates(c, tau));
    assert forall k :: 0 <= k < |g| ==> g[k] in g;
    CompleteValid(c, tau, g);
  }

  /** The baseline is maximal: no allowed cell could still be added, and what stands in the way
      is a chosen pair that costs no more. */
  lemma GreedyMaximal(c: Costs, tau: real, e: Edge)
    requires Allowed(c, tau, e)
    ensures exists f :: f in Edges(GreedyAssignment(c, tau).pairs) && Touches(f, e)
                        && c.at(f.left, f.right) <= c.at(e.left, e.right)
  {
    var cands := Candidates(c, tau);
    CandidatesAllowed(c, tau);
    GreedyValid(c, tau);
    if e !in Greedy(cands) {
      var k :| 0 <= k < |cands| && cands[k] == e;
      GreedyBlocksEarlier(cands, k);
      var j :| 0 <= j < k && cands[j] in Greedy(cands) && Touches(cands[j], cands[k]);
      CandidatesDescending(c, tau);
      assert Saving(c, tau)(cands[j]) >= Saving(c, tau)(cands[k]);
    }
  }

  lemma ValidMembers(c: Costs, tau: real, b: Assignment)
    requires Valid(c, tau, b)
    ensures OneToOne(Edges(b.pairs)) && forall e :: e in Edges(b.pairs) ==> Allowed(c, tau, e)
  {
  }

  /** The baseline saves at least half of what any valid matching saves against leaving everything
      unmatched. */
  lemma GreedyHalfSaving(c: Costs, tau: real, b: Assignment)
    requires tau <= 1.0 && Valid(c, tau, b)
    ensures var unmatched := (1.0 - tau) * (c.rows + c.cols) as real;
            2.0 * (unmatched - Total(c, tau, GreedyAssignment(c, tau))) >= unmatched - Total(c, tau, b)
  {
    hide Valid, Total, Times, Weight, Candidates, Greedy, OneToOne, GreedyAssignment, Edges;
    var cands := Candidates(c, tau);
    CandidatesAllowed(c, tau);
    CandidatesDescending(c, tau);
    GreedyValid(c, tau);
    TotalIsSaving(c, tau, GreedyAssignment(c, tau));
    TotalIsSaving(c, tau, b);
    TimesIsProduct(1.0 - tau, c.rows + c.cols);
    ValidMembers(c, tau, b);
    GreedyHalf(Saving(c, tau), cands, Edges(b.pairs));
  }

  /** The demonstration the baseline exists for: the engine's matcher is never beaten by it, and saves at most
      twice as much. */
  lemma HungarianBeatsGreedy(c: Costs, tau: real, a: Assignment)
    requires Optimal(c, tau, a)
    ensures Total(c, tau, a) <= Total(c, tau, GreedyAssignment(c, tau))
    ensures tau <= 1.0 ==>
              var unmatched := (1.0 - tau) * (c.rows + c.cols) as real;
              unmatched - Total(c, tau, a) <= 2.0 * (unmatched - Total(c, tau, GreedyAssignment(c, tau)))
  {
    GreedyValid(c, tau);
    OptimalValid(c, tau, a);
    hide Valid, Total, GreedyAssignment;
    if tau <= 1.0 {
      GreedyHalfSaving(c, tau, a);
    }
  }

  /** Nothing is kept after the first cell at the null cost. */
  lemma {:induction false} UnderNullStops(cells: seq<Cell>, nullCost: real, k: nat)
    requires Sorted(NoDearer, cells) && k < |cells| && cells[k].cost >= nullCost
    ensures UnderNull(cells, nullCost) == UnderNull(cells[..k], nullCost)
    decreases |cells|
  {
    if k < |cells| - 1 {
      var t := cells[..|cells| - 1];
      assert NoDearer(cells[k], cells[|cells| - 1]);
      UnderNullStops(t, nullCost, k);
      assert t[..k] == cells[..k];
    }
  }

  method ListCells(cost: array2<real>) returns (listed: seq<Cell>)
    ensures listed == Cells(View(cost), cost.Length0)
  {
    ghost var c := View(cost);
    listed := [];
    for i := 0 to cost.Length0
      invariant listed == Cells(c, i)
    {
      ghost var before := listed;
      for j := 0 to cost.Length1
        invariant listed == before + RowCells(c, i, j)
      {
        listed := listed + [Cell(cost[i, j], Edge(i, j))];
      }
    }
  }

  method GreedyMatching(cost: array2<real>, tau: real) returns (a: Assignment)
    ensures a == GreedyAssignment(View(cost), tau)
  {
    hide Lefts, Rights, Others, Blocked, UnderNull, Greedy, Scored, SortBy, Cells;
    ghost var c := View(cost);
    var nullCost := 1.0 - tau;
    var listed := ListCells(cost);
    var cells := SortBy(NoDearer, listed);
    SortBySorted(NoDearer, listed);

    var pairs, usedOld, usedNew := [], {}, {};
    ghost var es := [];
    var k := 0;
    GreedyStart(c, cells, nullCost);
    while k < |cells| && cells[k].cost < nullCost
      invariant k <= |cells|
      invariant es == Greedy(UnderNull(cells[..k], nullCost))
      invariant pairs == Scored(c, es) && usedOld == Lefts(es) && usedNew == Rights(es)
    {
      var e := cells[k].edge;
      GreedyStep(c, cells, nullCost, k);
      BlockedBySides(es, e);
      if !(e.left in usedOld || e.right in usedNew) {
        ScoredSnoc(c, es, e);
        es := es + [e];
        pairs := pairs + [Pair(e, 1.0 - cells[k].cost)];
        usedOld, usedNew := usedOld + {e.left}, usedNew + {e.right};
      }
      k := k + 1;
    }
    if k < |cells| {
      UnderNullStops(cells, nullCost, k);
    } else {
      assert cells[..k] == cells;
    }
    a := Assignment(pairs, Others(cost.Length0, usedOld), Others(cost.Length1, usedNew));
  }

  lemma GreedyStart(c: Costs, cells: seq<Cell>, nullCost: real)
    ensures Greedy(UnderNull(cells[..0], nullCost)) == []
    ensures Scored(c, []) == [] && Lefts([]) == {} && Rights([]) == {}
  {
  }

  lemma GreedyStep(c: Costs, cells: seq<Cell>, nullCost: real, k: nat)
    requires k < |cells| && cells[k].cost < nullCost
    requires cells == SortBy(NoDearer, Cells(c, c.rows))
    ensures cells[k].cost == c.at(cells[k].edge.left, cells[k].edge.right)
    ensures var es := Greedy(UnderNull(cells[..k], nullCost));
            Greedy(UnderNull(cells[..k + 1], nullCost))
            == if Blocked(es, cells[k].edge) then es else es + [cells[k].edge]
  {
    hide SortBy, Cells, Blocked;
    assert cells[k] in cells;
    CellsMembers(c, c.rows, cells[k]);
    assert cells[..k + 1][..k] == cells[..k];
    var t := UnderNull(cells[..k], nullCost);
    assert (t + [cells[k].edge])[..|t|] == t;
  }
}
