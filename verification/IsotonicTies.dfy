/** What tied probabilities do to the applied calibrator (packages/evaluation/calibration.py): when looking a
    value up by its probability gives the least-squares fit back. */
module IsotonicTies {
  import opened Isotonic
  import opened Sorting

  // --- where a point falls ---

  /** Which block a point falls in: its value is the block's, the block reaches at least to it, and
      every earlier block ends at an earlier point. */
  ghost predicate InBlock(blocks: seq<Block>, points: seq<Point>, i: nat, b: nat)
    requires Counted(blocks)
  {
    && i < |points| == |Fit(blocks)| && b < |blocks|
    && Fit(blocks)[i] == Mean(blocks[b])
    && points[i].probability <= blocks[b].upper
    && forall k: nat :: k < b ==> EndsBy(blocks, points, k, i)
  }

  ghost predicate EndsBy(blocks: seq<Block>, points: seq<Point>, k: nat, i: nat)
    requires Counted(blocks)
  {
    k < |blocks| && exists e: nat :: e <= i && EndOf(blocks, points, k, e)
  }

  ghost predicate EndOf(blocks: seq<Block>, points: seq<Point>, k: nat, e: nat)
    requires Counted(blocks) && k < |blocks|
  {
    && e < |points| == |Fit(blocks)|
    && points[e].probability == blocks[k].upper
    && Fit(blocks)[e] == Mean(blocks[k])
  }

  lemma {:induction false} BlockEnd(blocks: seq<Block>, points: seq<Point>, k: nat) returns (e: nat)
    requires Counted(blocks) && Tiles(blocks, points) && k < |blocks|
    ensures EndOf(blocks, points, k, e)
  {
    FitLength(blocks, points);
    var b := blocks[|blocks| - 1];
    var n := |points| - b.count;
    FitLength(blocks[..|blocks| - 1], points[..n]);
    if k == |blocks| - 1 {
      e := |points| - 1;
      assert points[n..][b.count - 1] == points[e];
    } else {
      e := BlockEnd(blocks[..|blocks| - 1], points[..n], k);
    }
  }

  lemma {:induction false} BlockOf(blocks: seq<Block>, points: seq<Point>, i: nat) returns (b: nat)
    requires Counted(blocks) && Tiles(blocks, points) && Sorted(NoGreater, points) && i < |points|
    ensures InBlock(blocks, points, i, b)
  {
    FitLength(blocks, points);
    var last := blocks[|blocks| - 1];
    var prev, n := blocks[..|blocks| - 1], |points| - last.count;
    FitLength(prev, points[..n]);
    if i >= n {
      b := |blocks| - 1;
      assert points[n..][last.count - 1] == points[|points| - 1];
      assert i < |points| - 1 ==> NoGreater(points[i], points[|points| - 1]);
      forall k: nat | k < b ensures EndsBy(blocks, points, k, i) {
        var e := BlockEnd(prev, points[..n], k);
        assert EndOf(blocks, points, k, e);
      }
    } else {
      b := BlockOf(prev, points[..n], i);
      forall k: nat | k < b ensures EndsBy(blocks, points, k, i) {
        assert EndsBy(prev, points[..n], k, i);
        var e: nat :| e <= i && EndOf(prev, points[..n], k, e);
        assert EndOf(blocks, points, k, e);
      }
    }
  }

  /** `Value` answers from the first block that reaches the probability. */
  lemma {:induction false} ValueIndex(c: Calibrator, p: real, from: nat) returns (i: nat)
    requires |c.values| == |c.upperBounds| > 0 && from < |c.values|
    ensures from <= i < |c.values| && Value(c, p, from) == c.values[i]
    ensures p <= c.upperBounds[i] || i == |c.values| - 1
    ensures forall k :: from <= k < i ==> p > c.upperBounds[k]
    decreases |c.values| - from
  {
    if p <= c.upperBounds[from] || from == |c.values| - 1 {
      i := from;
      assert Value(c, p, |c.values|) == c.values[|c.values| - 1];
    } else {
      i := ValueIndex(c, p, from + 1);
    }
  }

  /** The calibrator fitted to the points, as a function of the probability. */
  ghost function Applied(points: seq<Point>): real -> real
    requires points != []
  {
    var c := CalibratorOf(Pool(points));
    FittedShape(c, points);
    (p: real) => Value(c, p, 0)
  }

  lemma PointAgrees(points: seq<Point>, i: nat)
    requires Sorted(NoGreater, points) && i < |points| && |Fit(Pool(points))| == |points|
    requires forall j :: 0 <= j < i && points[j].probability == points[i].probability ==>
               Fit(Pool(points))[j] == Fit(Pool(points))[i]
    ensures points != [] && Applied(points)(points[i].probability) == Fit(Pool(points))[i]
  {
    hide Pool, Tiles, Fit, Rising, Covers, Value, Mean;
    var blocks, p := Pool(points), points[i].probability;
    PoolTiles(points);
    var b := BlockOf(blocks, points, i);
    var c := CalibratorOf(blocks);
    var k := ValueIndex(c, p, 0);
    assert c.upperBounds[b] == blocks[b].upper;
    if k < b {
      assert EndsBy(blocks, points, k, i);
      var e: nat :| e <= i && EndOf(blocks, points, k, e);
      assert e < i ==> NoGreater(points[e], points[i]);
    }
  }

  // --- the fit balances the labels ---

  ghost function SumOf(f: seq<real>, k: nat): real
    requires k <= |f|
  {
    if k == 0 then 0.0 else SumOf(f, k - 1) + f[k - 1]
  }

  /** By how much the first `k` labels exceed the fitted values. */
  ghost function Slack(points: seq<Point>, f: seq<real>, k: nat): real
    requires k <= |points| && k <= |f|
  {
    PrefixSum(points, k) - SumOf(f, k)
  }

  /** The labels run ahead of the fit nowhere short of it, and meet it wherever the fit rises. */
  ghost predicate Balanced(points: seq<Point>, f: seq<real>) {
    && |f| == |points| && NonDecreasing(f)
    && (forall k :: 0 <= k <= |f| ==> Slack(points, f, k) >= 0.0)
    && Slack(points, f, |f|) == 0.0
    && (forall k :: 0 < k < |f| && Rises(f, k) ==> Slack(points, f, k) == 0.0)
  }

  predicate Rises(f: seq<real>, k: nat)
    requires 0 < k < |f|
  {
    f[k - 1] < f[k]
  }

  lemma {:induction false} SlackPrefix(a: seq<Point>, b: seq<Point>, f: seq<real>, g: seq<real>, k: nat)
    requires |a| == |f| && k <= |a|
    ensures Slack(a + b, f + g, k) == Slack(a, f, k)
  {
    if k == 0 {
    } else {
      SlackPrefix(a, b, f, g, k - 1);
    }
  }

  lemma {:induction false} SlackJoin(a: seq<Point>, b: seq<Point>, f: seq<real>, g: seq<real>, k: nat)
    requires |a| == |f| && |b| == |g| && k <= |b|
    ensures Slack(a + b, f + g, |a| + k) == Slack(a, f, |a|) + Slack(b, g, k)
  {
    if k == 0 {
      SlackPrefix(a, b, f, g, |a|);
    } else {
      SlackJoin(a, b, f, g, k - 1);
    }
  }

  /** `k` times `x`, by addition. */
  ghost function Multiple(x: real, k: nat): real {
    if k == 0 then 0.0 else Multiple(x, k - 1) + x
  }

  lemma {:induction false} MultipleIs(x: real, k: nat)
    ensures Multiple(x, k) == x * k as real
  {
    if k == 0 {
    } else {
      MultipleIs(x, k - 1);
      assert x * k as real == x * (k - 1) as real + x;
    }
  }

  lemma {:induction false} ConstantSum(x: real, n: nat, k: nat)
    requires k <= n
    ensures SumOf(Constant(x, n), k) == Multiple(x, k)
  {
    if k == 0 {
    } else {
      ConstantSum(x, n, k - 1);
    }
  }

  lemma BlockSlack(b: Block, points: seq<Point>, k: nat)
    requires Covers(b, points) && k <= b.count
    ensures Slack(points, Constant(Mean(b), b.count), k) >= 0.0
    ensures Slack(points, Constant(Mean(b), b.count), b.count) == 0.0
  {
    MeanProduct(b);
    hide Mean, PrefixSum, SumOf;
    ConstantSum(Mean(b), b.count, k);
    ConstantSum(Mean(b), b.count, b.count);
    MultipleIs(Mean(b), k);
    MultipleIs(Mean(b), b.count);
  }

  /** Adding a block to a balanced fit: the slack before it stays, and in it there is only its own. */
  lemma JoinedSlack(a: seq<Point>, f: seq<real>, b: Block, points: seq<Point>, k: nat)
    requires |a| == |f| && Slack(a, f, |f|) == 0.0 && Covers(b, points) && k <= |f| + b.count
    ensures |points| == b.count
    ensures var slack := Slack(a + points, f + Constant(Mean(b), b.count), k);
            && (k <= |f| ==> slack == Slack(a, f, k))
            && (k >= |f| ==> slack >= 0.0)
            && (k == |f| || k == |f| + b.count ==> slack == 0.0)
  {
    CoversCount(b, points);
    hide Mean, Slack, Covers, Constant;
    var c := Constant(Mean(b), b.count);
    assert |c| == b.count by { ConstantLength(Mean(b), b.count); }
    if k <= |f| {
      SlackPrefix(a, points, f, c, k);
    } else {
      SlackJoin(a, points, f, c, k - |f|);
      BlockSlack(b, points, k - |f|);
    }
  }

  lemma ConstantLength(x: real, n: nat)
    ensures |Constant(x, n)| == n && forall i :: 0 <= i < n ==> Constant(x, n)[i] == x
  {
  }

  lemma RisingJoin(f: seq<real>, x: real, n: nat)
    requires NonDecreasing(f) && (f != [] ==> f[|f| - 1] <= x)
    ensures NonDecreasing(f + Constant(x, n))
    ensures forall k :: 0 < k < |f| + n && Rises(f + Constant(x, n), k) ==> k <= |f| && (k < |f| ==> Rises(f, k))
  {
    assert forall i :: 0 <= i < |f| ==> f[i] <= x;
  }

  lemma BalancedJoin(a: seq<Point>, f: seq<real>, b: Block, points: seq<Point>)
    requires Balanced(a, f) && Covers(b, points) && (f != [] ==> f[|f| - 1] <= Mean(b))
    ensures Balanced(a + points, f + Constant(Mean(b), b.count))
  {
    CoversCount(b, points);
    var all, g := a + points, f + Constant(Mean(b), b.count);
    RisingJoin(f, Mean(b), b.count);
    ConstantLength(Mean(b), b.count);
    hide Mean, Slack, Covers, Constant, Rises, NonDecreasing;
    forall k: nat | k <= |g|
      ensures Slack(all, g, k) >= 0.0
      ensures k == |g| ==> Slack(all, g, k) == 0.0
      ensures 0 < k < |g| && Rises(g, k) ==> Slack(all, g, k) == 0.0
    {
      JoinedSlack(a, f, b, points, k);
    }
  }

  lemma CoversCount(b: Block, points: seq<Point>)
    requires Covers(b, points)
    ensures b.count == |points| > 0
  {
  }

  /** The pooled fit balances the labels. */
  lemma {:induction false} FitBalanced(blocks: seq<Block>, points: seq<Point>)
    requires Counted(blocks) && Tiles(blocks, points) && Rising(blocks)
    ensures Balanced(points, Fit(blocks))
    ensures blocks != [] ==> Fit(blocks) != [] && Fit(blocks)[|Fit(blocks)| - 1] == Mean(blocks[|blocks| - 1])
  {
    if blocks == [] {
    } else {
      var prev, b := blocks[..|blocks| - 1], blocks[|blocks| - 1];
      var n := |points| - b.count;
      FitBalanced(prev, points[..n]);
      hide Balanced, Covers, Mean;
      assert points == points[..n] + points[n..];
      BalancedJoin(points[..n], Fit(prev), b, points[n..]);
    }
  }

  // --- which neighbours are fitted together ---

  ghost function SpanSum(points: seq<Point>, lo: nat, hi: nat): real
    requires lo <= hi <= |points|
  {
    PrefixSum(points, hi) - PrefixSum(points, lo)
  }

  /** The mean label of the points from `lo` up to `hi`. */
  ghost function SpanMean(points: seq<Point>, lo: nat, hi: nat): real
    requires lo < hi <= |points|
  {
    SpanSum(points, lo, hi) / (hi - lo) as real
  }

  /** The points from `s` up to `i` average no less than those after `i` up to `t`. */
  ghost predicate Outweighs(points: seq<Point>, i: nat, s: nat, t: nat) {
    s <= i && i + 1 < t <= |points| && SpanMean(points, s, i + 1) >= SpanMean(points, i + 1, t)
  }

  /** Some run of points ending at `i` averages no less than some run starting after it. */
  ghost predicate Inseparable(points: seq<Point>, i: nat) {
    exists s: nat, t: nat :: Outweighs(points, i, s, t)
  }

  lemma QuotientOrder(x: real, n: real, v: real)
    requires n > 0.0
    ensures x / n <= v <==> x <= v * n
    ensures x / n >= v <==> x >= v * n
  {
    var q := x / n;
    assert (q - v) * n == x - v * n;
  }

  lemma SpanMeanOrder(points: seq<Point>, lo: nat, hi: nat, v: real)
    requires lo < hi <= |points|
    ensures SpanMean(points, lo, hi) <= v <==> SpanSum(points, lo, hi) <= Multiple(v, hi - lo)
    ensures SpanMean(points, lo, hi) >= v <==> SpanSum(points, lo, hi) >= Multiple(v, hi - lo)
  {
    hide SpanSum;
    MultipleIs(v, hi - lo);
    QuotientOrder(SpanSum(points, lo, hi), (hi - lo) as real, v);
  }

  lemma {:induction false} SumBetween(f: seq<real>, lo: nat, hi: nat, v: real)
    requires lo <= hi <= |f|
    ensures (forall j :: lo <= j < hi ==> f[j] <= v) ==> SumOf(f, hi) - SumOf(f, lo) <= Multiple(v, hi - lo)
    ensures (forall j :: lo <= j < hi ==> f[j] >= v) ==> SumOf(f, hi) - SumOf(f, lo) >= Multiple(v, hi - lo)
  {
    if lo == hi {
    } else {
      SumBetween(f, lo, hi - 1, v);
    }
  }

  /** The stretch of equal fitted values that ends at `i` starts without slack. */
  lemma {:induction false} LevelStart(points: seq<Point>, f: seq<real>, i: nat) returns (s: nat)
    requires Balanced(points, f) && i < |f|
    ensures s <= i && (forall j :: s <= j <= i ==> f[j] == f[i])
    ensures SumOf(f, s) == PrefixSum(points, s)
  {
    s := i;
    if i == 0 {
    } else if Rises(f, i) {
      assert Slack(points, f, i) == 0.0;
    } else {
      assert f[i - 1] == f[i];
      s := LevelStart(points, f, i - 1);
    }
  }

  lemma {:induction false} LevelEnd(points: seq<Point>, f: seq<real>, i: nat) returns (t: nat)
    requires Balanced(points, f) && i < |f|
    ensures i < t <= |f| && (forall j :: i <= j < t ==> f[j] == f[i])
    ensures SumOf(f, t) == PrefixSum(points, t)
    decreases |f| - i
  {
    t := i + 1;
    if t == |f| {
      assert Slack(points, f, |f|) == 0.0;
    } else if Rises(f, t) {
      assert Slack(points, f, t) == 0.0;
    } else {
      assert f[i] == f[t];
      t := LevelEnd(points, f, t);
    }
  }

  /** Equal fitted values: over their stretch the labels before the cut run ahead of those after it. */
  lemma TogetherInseparable(points: seq<Point>, f: seq<real>, i: nat)
    requires Balanced(points, f) && i + 1 < |points| && f[i] == f[i + 1]
    ensures Inseparable(points, i)
  {
    var s := LevelStart(points, f, i);
    var t := LevelEnd(points, f, i + 1);
    assert Slack(points, f, i + 1) >= 0.0;
    SumBetween(f, s, i + 1, f[i]);
    SumBetween(f, i + 1, t, f[i]);
    hide Balanced, SumOf, PrefixSum, SpanMean, Multiple;
    SpanMeanOrder(points, s, i + 1, f[i]);
    SpanMeanOrder(points, i + 1, t, f[i]);
    assert Outweighs(points, i, s, t);
  }

  /** Rising fitted values: every run before the cut averages at most the one, every run after it at least
      the other. */
  lemma RisingSeparates(points: seq<Point>, f: seq<real>, i: nat, s: nat, t: nat)
    requires Balanced(points, f) && i + 1 < |points| && f[i] < f[i + 1] && s <= i && i + 1 < t <= |points|
    ensures SpanMean(points, s, i + 1) <= f[i] < f[i + 1] <= SpanMean(points, i + 1, t)
  {
    assert Rises(f, i + 1) && Slack(points, f, i + 1) == 0.0;
    assert Slack(points, f, s) >= 0.0 && Slack(points, f, t) >= 0.0;
    assert forall j :: s <= j < i + 1 ==> f[j] <= f[i];
    assert forall j :: i + 1 <= j < t ==> f[j] >= f[i + 1];
    SumBetween(f, s, i + 1, f[i]);
    SumBetween(f, i + 1, t, f[i + 1]);
    hide Balanced, SumOf, PrefixSum, SpanMean, Multiple;
    SpanMeanOrder(points, s, i + 1, f[i]);
    SpanMeanOrder(points, i + 1, t, f[i + 1]);
  }

  /** Two neighbouring points are fitted alike exactly when their labels cannot be told apart by averages. */
  lemma FittedTogether(points: seq<Point>, i: nat)
    requires i + 1 < |points|
    ensures |Fit(Pool(points))| == |points|
    ensures Fit(Pool(points))[i] == Fit(Pool(points))[i + 1] <==> Inseparable(points, i)
  {
    PoolTiles(points);
    FitBalanced(Pool(points), points);
    var f := Fit(Pool(points));
    assert f[i] <= f[i + 1];
    hide Pool, Fit, Tiles, Rising, SpanMean;
    if f[i] == f[i + 1] {
      TogetherInseparable(points, f, i);
    } else if Inseparable(points, i) {
      var s: nat, t: nat :| Outweighs(points, i, s, t);
      RisingSeparates(points, f, i, s, t);
    }
  }

  // --- when looking up gives the fit back ---

  predicate Tied(points: seq<Point>, i: nat)
    requires i + 1 < |points|
  {
    points[i].probability == points[i + 1].probability
  }

  /** No two neighbours of equal probability can be told apart by averages of labels. */
  ghost predicate TiesInseparable(points: seq<Point>) {
    forall i: nat :: i + 1 < |points| && Tied(points, i) ==> Inseparable(points, i)
  }

  /** Tied points before which no tied neighbours are split share their fitted value. */
  lemma {:induction false} TiesChain(points: seq<Point>, f: seq<real>, j: nat, i: nat)
    requires Sorted(NoGreater, points) && |f| == |points| && j <= i < |points|
    requires points[j].probability == points[i].probability
    requires forall k: nat :: k < i && Tied(points, k) ==> f[k] == f[k + 1]
    ensures f[j] == f[i]
    decreases i - j
  {
    if j == i {
    } else {
      assert NoGreater(points[i - 1], points[i]);
      assert j < i - 1 ==> NoGreater(points[j], points[i - 1]);
      assert Tied(points, i - 1);
      TiesChain(points, f, j, i - 1);
    }
  }

  /** Up to the first split tie, looking up gives the fit back. */
  lemma AgreesBeforeSplit(points: seq<Point>, i: nat)
    requires Sorted(NoGreater, points) && i < |points| == |Fit(Pool(points))|
    requires forall k: nat :: k < i && Tied(points, k) ==> Fit(Pool(points))[k] == Fit(Pool(points))[k + 1]
    ensures Applied(points)(points[i].probability) == Fit(Pool(points))[i]
  {
    var f := Fit(Pool(points));
    hide Pool, Fit, Tied, Applied, Sorted;
    forall j | 0 <= j < i && points[j].probability == points[i].probability ensures f[j] == f[i] {
      TiesChain(points, f, j, i);
    }
    PointAgrees(points, i);
  }

  /** Applied to its own training probabilities, the calibrator returns the least-squares fit exactly when
      no tied neighbours can be told apart by averages of the labels around them. */
  lemma ApplyAgrees(points: seq<Point>)
    requires Sorted(NoGreater, points) && points != []
    ensures |Fit(Pool(points))| == |points|
    ensures (forall i :: 0 <= i < |points| ==> Applied(points)(points[i].probability) == Fit(Pool(points))[i])
            <==> TiesInseparable(points)
  {
    PoolTiles(points);
    FitLength(Pool(points), points);
    var f := Fit(Pool(points));
    hide Pool, Fit, Applied, Inseparable, Tiles, Rising, Sorted;
    forall i: nat | i + 1 < |points| ensures f[i] == f[i + 1] <==> Inseparable(points, i) {
      FittedTogether(points, i);
    }
    if TiesInseparable(points) {
      forall i | 0 <= i < |points| ensures Applied(points)(points[i].probability) == f[i] {
        AgreesBeforeSplit(points, i);
      }
    }
  }

  /** It can fail: two equal probabilities with outcomes 0 then 1 are fitted apart, and the applied
      calibrator answers 0 for both, worse than the constant one half. */
  lemma TiesCanSplit()
    ensures var points := [Point(0.5, 0.0), Point(0.5, 1.0)];
            && Sorted(NoGreater, points)
            && Fit(Pool(points)) == [0.0, 1.0]
            && Applied(points)(0.5) == 0.0
            && Loss(points, [0.5, 0.5], 2) < Loss(points, [0.0, 0.0], 2)
  {
    var a, b := Point(0.5, 0.0), Point(0.5, 1.0);
    var points := [a, b];
    assert points[..1] == [a];
    assert Pool([a]) == [Block(0.5, 0.0, 1)] by {
      assert [a][..0] == [];
    }
    assert Pool(points) == [Block(0.5, 0.0, 1), Block(0.5, 1.0, 1)];
    assert Pool(points)[..1] == [Block(0.5, 0.0, 1)];
    assert Fit([Block(0.5, 0.0, 1)]) == [0.0] by {
      assert [Block(0.5, 0.0, 1)][..0] == [];
    }
    LossPair(points, [0.5, 0.5]);
    LossPair(points, [0.0, 0.0]);
  }

  lemma LossPair(points: seq<Point>, f: seq<real>)
    requires |points| == |f| == 2
    ensures Loss(points, f, 2) == Square(points[0].outcome - f[0]) + Square(points[1].outcome - f[1])
  {
    assert Loss(points, f, 1) == Loss(points, f, 0) + Square(points[0].outcome - f[0]);
  }

  ghost predicate RisingFunction(h: real -> real) {
    forall x, y :: x <= y ==> h(x) <= h(y)
  }

  ghost function At(points: seq<Point>, h: real -> real): seq<real> {
    seq(|points|, k requires 0 <= k < |points| => h(points[k].probability))
  }

  // --- when the applied calibrator is optimal ---

  /** No non-decreasing function of the probability has a smaller squared error. */
  ghost predicate BestFunction(points: seq<Point>, g: real -> real) {
    forall h :: RisingFunction(h) ==> Loss(points, At(points, g), |points|) <= Loss(points, At(points, h), |points|)
  }

  lemma AtNonDecreasing(points: seq<Point>, h: real -> real)
    requires Sorted(NoGreater, points) && RisingFunction(h)
    ensures NonDecreasing(At(points, h))
  {
    forall i, j | 0 <= i < j < |points| ensures At(points, h)[i] <= At(points, h)[j] {
      assert NoGreater(points[i], points[j]);
    }
  }

  lemma InseparableOptimal(points: seq<Point>, h: real -> real)
    requires Sorted(NoGreater, points) && points != [] && TiesInseparable(points) && RisingFunction(h)
    ensures Loss(points, At(points, Applied(points)), |points|) <= Loss(points, At(points, h), |points|)
  {
    ApplyAgrees(points);
    PoolTiles(points);
    var f := Fit(Pool(points));
    AtNonDecreasing(points, h);
    hide Pool, Fit, Applied, Tiles, Rising, TiesInseparable, Loss;
    assert At(points, Applied(points)) == f;
    FitOptimal(Pool(points), points, At(points, h));
    DistancePositive(f, At(points, h), |points|);
  }

  // --- otherwise the first split level can be raised ---

  /** The labels' excess over `c` at the points whose value in `a` is `c`. */
  ghost function Excess(points: seq<Point>, a: seq<real>, c: real, k: nat): real
    requires k <= |points| && k <= |a|
  {
    if k == 0 then 0.0
    else Excess(points, a, c, k - 1) + (if a[k - 1] == c then points[k - 1].outcome - c else 0.0)
  }

  ghost function LevelCount(a: seq<real>, c: real, k: nat): nat
    requires k <= |a|
  {
    if k == 0 then 0 else LevelCount(a, c, k - 1) + (if a[k - 1] == c then 1 else 0)
  }

  function Raised(x: real, c: real, step: real): real {
    if x == c then x + step else x
  }

  ghost function RaisedAll(a: seq<real>, c: real, step: real): (r: seq<real>)
    ensures |r| == |a| && forall k :: 0 <= k < |a| ==> r[k] == Raised(a[k], c, step)
  {
    seq(|a|, k requires 0 <= k < |a| => Raised(a[k], c, step))
  }

  lemma SquareRaise(y: real, c: real, step: real)
    ensures Square(y - (c + step)) == Square(y - c) - 2.0 * Product(step, y - c) + Product(step, step)
  {
  }

  lemma ProductAdd(x: real, y: real, z: real)
    ensures Product(x, y + z) == Product(x, y) + Product(x, z)
  {
  }

  /** What raising a level changes in the squared error. */
  lemma {:induction false} RaiseLoss(points: seq<Point>, a: seq<real>, c: real, step: real, k: nat)
    requires k <= |points| && k <= |a|
    ensures Loss(points, RaisedAll(a, c, step), k)
            == Loss(points, a, k) - 2.0 * Product(step, Excess(points, a, c, k))
              + Multiple(Product(step, step), LevelCount(a, c, k))
  {
    hide Product, Square;
    if k == 0 {
      assert Product(step, 0.0) == 0.0 by { ProductZero(step); }
    } else {
      RaiseLoss(points, a, c, step, k - 1);
      if a[k - 1] == c {
        SquareRaise(points[k - 1].outcome, c, step);
        ProductAdd(step, Excess(points, a, c, k - 1), points[k - 1].outcome - c);
      }
    }
  }

  lemma ProductZero(x: real)
    ensures Product(x, 0.0) == 0.0
  {
  }

  /** A level may be raised by this much without passing the next value. */
  lemma {:induction false} GapAbove(values: seq<real>, c: real) returns (gap: real)
    ensures gap > 0.0 && Clear(values, c, gap)
  {
    if values == [] {
      gap := 1.0;
    } else {
      var last := values[|values| - 1];
      gap := GapAbove(values[..|values| - 1], c);
      if c < last < c + gap {
        gap := last - c;
      }
    }
  }

  /** Raising by little enough gains. */
  lemma SmallRaise(step: real, excess: real, n: nat)
    requires step > 0.0 && excess > 0.0 && step * n as real <= excess
    ensures Multiple(Product(step, step), n) < 2.0 * Product(step, excess)
  {
    MultipleIs(step * step, n);
    assert step * step * n as real == step * (step * n as real);
    assert step * (step * n as real) <= step * excess;
    assert step * excess > 0.0;
  }

  /** Looking up never answers above the fit, and at the points up to the first split exactly the fit. */
  lemma AppliedBelowFit(points: seq<Point>, i: nat)
    requires Sorted(NoGreater, points) && i < |points| == |Fit(Pool(points))| && NonDecreasing(Fit(Pool(points)))
    ensures Applied(points)(points[i].probability) <= Fit(Pool(points))[i]
  {
    var f := Fit(Pool(points));
    var g := FirstTied(points, i);
    hide Pool, Fit, Applied;
    assert Applied(points)(points[g].probability) == f[g] by {
      PointAgrees(points, g);
    }
  }

  lemma {:induction false} FirstTied(points: seq<Point>, i: nat) returns (g: nat)
    requires Sorted(NoGreater, points) && i < |points|
    ensures g <= i && points[g].probability == points[i].probability
    ensures forall j :: 0 <= j < g ==> points[j].probability != points[g].probability
  {
    g := i;
    if i == 0 {
    } else {
      if Tied(points, i - 1) {
        g := FirstTied(points, i - 1);
      } else {
        forall j | 0 <= j < i ensures points[j].probability != points[i].probability {
          assert NoGreater(points[i - 1], points[i]);
          assert j < i - 1 ==> NoGreater(points[j], points[i - 1]);
        }
      }
    }
  }

  /** `i` is the first place where a tie is split. */
  ghost predicate FirstSplit(points: seq<Point>, f: seq<real>, i: nat) {
    && i + 1 < |points| == |f| && Tied(points, i) && Rises(f, i + 1)
    && forall k: nat :: k < i && Tied(points, k) ==> f[k] == f[k + 1]
  }

  /** At the level of the first split the labels exceed the values looked up. */
  ghost predicate Looked(points: seq<Point>, f: seq<real>, a: seq<real>, i: nat) {
    && |a| == |f| == |points| && NonDecreasing(a) && i + 1 < |a|
    && (forall k :: 0 <= k < |a| ==> a[k] <= f[k])
    && (forall k :: 0 <= k <= i ==> a[k] == f[k])
    && a[i + 1] == a[i] < f[i + 1]
  }

  /** The fit's excess over the level, from the level's first point on. */
  ghost function Lift(f: seq<real>, a: seq<real>, c: real, k: nat): real
    requires k <= |a| && k <= |f|
  {
    if k == 0 then 0.0 else Lift(f, a, c, k - 1) + (if a[k - 1] == c then f[k - 1] - c else 0.0)
  }

  lemma {:induction false} LiftPositive(points: seq<Point>, f: seq<real>, a: seq<real>, i: nat, k: nat)
    requires Looked(points, f, a, i) && k <= |a|
    ensures Lift(f, a, a[i], k) >= 0.0 && (k > i + 1 ==> Lift(f, a, a[i], k) > 0.0)
  {
    if k == 0 {
    } else {
      LiftPositive(points, f, a, i, k - 1);
    }
  }

  /** The excess is the lift and what slack the fit has left where the level ends. */
  lemma {:induction false} ExcessIs(points: seq<Point>, f: seq<real>, a: seq<real>, i: nat, k: nat)
    requires Balanced(points, f) && Looked(points, f, a, i) && k <= |a|
    ensures var excess := Excess(points, a, a[i], k) - Lift(f, a, a[i], k);
            && excess >= 0.0
            && (k == 0 || a[k - 1] < a[i] ==> excess == 0.0)
            && (k > 0 && a[k - 1] == a[i] ==> excess == Slack(points, f, k))
  {
    if k == 0 {
    } else {
      ExcessIs(points, f, a, i, k - 1);
      assert k >= 2 ==> a[k - 2] <= a[k - 1];
      assert Slack(points, f, k) >= 0.0;
      if a[k - 1] == a[i] && (k == 1 || a[k - 2] < a[i]) {
        assert k - 1 <= i;
        assert k >= 2 ==> Rises(f, k - 1);
        assert Slack(points, f, k - 1) == 0.0;
      }
    }
  }

  lemma ExcessPositive(points: seq<Point>, f: seq<real>, a: seq<real>, i: nat)
    requires Balanced(points, f) && Looked(points, f, a, i)
    ensures Excess(points, a, a[i], |a|) > 0.0
  {
    LiftPositive(points, f, a, i, |a|);
    ExcessIs(points, f, a, i, |a|);
  }

  lemma LookedAt(points: seq<Point>, i: nat)
    requires Sorted(NoGreater, points) && Balanced(points, Fit(Pool(points)))
             && FirstSplit(points, Fit(Pool(points)), i)
    ensures Looked(points, Fit(Pool(points)), At(points, Applied(points)), i)
  {
    var f := Fit(Pool(points));
    var a := At(points, Applied(points));
    AppliedRises(points);
    AtNonDecreasing(points, Applied(points));
    hide Pool, Fit, Applied, Slack;
    forall k | 0 <= k < |points| ensures a[k] <= f[k] {
      AppliedBelowFit(points, k);
    }
    forall k | 0 <= k <= i ensures a[k] == f[k] {
      AgreesBeforeSplit(points, k);
    }
  }

  lemma AppliedRises(points: seq<Point>)
    requires points != []
    ensures RisingFunction(Applied(points))
  {
    forall x, y | x <= y ensures Applied(points)(x) <= Applied(points)(y) {
      ApplyMonotone(CalibratorOf(Pool(points)), points, x, y);
    }
  }

  /** Every value looked up is one of the calibrator's. */
  lemma AppliedValue(points: seq<Point>, p: real) returns (k: nat)
    requires points != []
    ensures k < |CalibratorOf(Pool(points)).values| && Applied(points)(p) == CalibratorOf(Pool(points)).values[k]
  {
    FittedShape(CalibratorOf(Pool(points)), points);
    k := ValueIndex(CalibratorOf(Pool(points)), p, 0);
  }

  ghost predicate Clear(values: seq<real>, c: real, step: real) {
    forall k :: 0 <= k < |values| && values[k] > c ==> values[k] >= c + step
  }

  lemma AppliedClear(points: seq<Point>, p: real, c: real, step: real)
    requires points != [] && Clear(CalibratorOf(Pool(points)).values, c, step)
    ensures Applied(points)(p) > c ==> Applied(points)(p) >= c + step
  {
    hide Pool, Applied, CalibratorOf;
    var k := AppliedValue(points, p);
  }

  lemma RaisedRises(points: seq<Point>, c: real, step: real)
    requires points != [] && step > 0.0 && Clear(CalibratorOf(Pool(points)).values, c, step)
    ensures RisingFunction(p => Raised(Applied(points)(p), c, step))
  {
    AppliedRises(points);
    hide Pool, Applied, CalibratorOf, Clear;
    var g := Applied(points);
    forall x, y | x <= y ensures Raised(g(x), c, step) <= Raised(g(y), c, step) {
      AppliedClear(points, y, c, step);
      assert g(x) <= g(y);
    }
  }

  /** A split tie leaves room: raising the level of the first one lowers the squared error. */
  lemma SplitImproves(points: seq<Point>, i: nat) returns (h: real -> real)
    requires Sorted(NoGreater, points) && Balanced(points, Fit(Pool(points)))
             && FirstSplit(points, Fit(Pool(points)), i)
    ensures RisingFunction(h)
    ensures Loss(points, At(points, h), |points|) < Loss(points, At(points, Applied(points)), |points|)
  {
    var f, a := Fit(Pool(points)), At(points, Applied(points));
    LookedAt(points, i);
    var c, n := a[i], |points|;
    hide *;
    ExcessPositive(points, f, a, i);
    var excess, count := Excess(points, a, c, n), LevelCount(a, c, n);
    var gap := GapAbove(CalibratorOf(Pool(points)).values, c);
    var step := StepSize(gap, excess, count);
    h := p => Raised(Applied(points)(p), c, step);
    ClearBelow(CalibratorOf(Pool(points)).values, c, gap, step);
    RaisedRises(points, c, step);
    RaisedAt(points, c, step);
    RaiseLoss(points, a, c, step, n);
    SmallRaise(step, excess, count);
  }

  lemma ClearBelow(values: seq<real>, c: real, gap: real, step: real)
    requires Clear(values, c, gap) && step <= gap
    ensures Clear(values, c, step)
  {
  }

  lemma StepSize(gap: real, excess: real, n: nat) returns (step: real)
    requires gap > 0.0 && excess > 0.0
    ensures 0.0 < step <= gap && step * n as real <= excess
  {
    step := gap;
    if n > 0 && gap * n as real > excess {
      step := excess / n as real;
      QuotientOrder(excess, n as real, gap);
      assert step * n as real == excess;
      QuotientPositive(excess, n as real);
    } else if n == 0 {
      assert step * n as real == 0.0;
    }
  }

  lemma QuotientPositive(x: real, n: real)
    requires x > 0.0 && n > 0.0
    ensures x / n > 0.0
  {
  }

  lemma RaisedAt(points: seq<Point>, c: real, step: real)
    requires points != []
    ensures At(points, p => Raised(Applied(points)(p), c, step)) == RaisedAll(At(points, Applied(points)), c, step)
    ensures |At(points, Applied(points))| == |points|
  {
    hide Applied, Raised;
  }

  /** The first split before or at a split tie. */
  lemma {:induction false} FindSplit(points: seq<Point>, f: seq<real>, i: nat) returns (k: nat)
    requires NonDecreasing(f) && i + 1 < |points| == |f| && Tied(points, i) && f[i] != f[i + 1]
    ensures FirstSplit(points, f, k)
  {
    k := i;
    if j: nat :| j < i && Tied(points, j) && f[j] != f[j + 1] {
      k := FindSplit(points, f, j);
    }
  }

  /** The applied calibrator has the least squared error of all non-decreasing functions of the probability
      exactly when no tied neighbours can be told apart by averages of the labels around them. */
  lemma AppliedOptimal(points: seq<Point>)
    requires Sorted(NoGreater, points) && points != []
    ensures BestFunction(points, Applied(points)) <==> TiesInseparable(points)
  {
    if TiesInseparable(points) {
      forall h | RisingFunction(h)
        ensures Loss(points, At(points, Applied(points)), |points|) <= Loss(points, At(points, h), |points|)
      {
        InseparableOptimal(points, h);
      }
    } else {
      PoolTiles(points);
      FitBalanced(Pool(points), points);
      var i: nat :| i + 1 < |points| && Tied(points, i) && !Inseparable(points, i);
      hide Pool, Fit, Applied, Inseparable, Loss, Slack;
      FittedTogether(points, i);
      var k := FindSplit(points, Fit(Pool(points)), i);
      var h := SplitImproves(points, k);
    }
  }
}
