/** Isotonic calibration by pooling adjacent violators (packages/evaluation/calibration.py): the
    stack of blocks is the least-squares non-decreasing fit. */
module Isotonic {
  import opened Sorting

  datatype Point = Point(probability: real, outcome: real)

  datatype Block = Block(upper: real, sum: real, count: nat)

  datatype Calibrator = Calibrator(upperBounds: seq<real>, values: seq<real>)

  datatype FitResult = Fitted(calibrator: Calibrator) | ValueError

  function Mean(b: Block): real
    requires b.count > 0
  {
    b.sum / b.count as real
  }

  function Merge(left: Block, right: Block): Block {
    Block(right.upper, left.sum + right.sum, left.count + right.count)
  }

  predicate Counted(blocks: seq<Block>) {
    forall k :: 0 <= k < |blocks| ==> blocks[k].count > 0
  }

  /** Pools the top two blocks while they are out of order. */
  function Settle(blocks: seq<Block>): (r: seq<Block>)
    requires Counted(blocks)
    ensures Counted(r)
    decreases |blocks|
  {
    var n := |blocks|;
    if n < 2 || Mean(blocks[n - 2]) <= Mean(blocks[n - 1]) then blocks
    else Settle(blocks[..n - 2] + [Merge(blocks[n - 2], blocks[n - 1])])
  }

  function Pool(points: seq<Point>): (r: seq<Block>)
    ensures Counted(r)
  {
    if points == [] then []
    else
      var last := points[|points| - 1];
      Settle(Pool(points[..|points| - 1]) + [Block(last.probability, last.outcome, 1)])
  }

  predicate NoGreater(a: Point, b: Point) {
    a.probability <= b.probability
  }

  function Zip(probabilities: seq<real>, labels: seq<real>): seq<Point>
    requires |probabilities| == |labels|
  {
    seq(|labels|, k requires 0 <= k < |labels| => Point(probabilities[k], labels[k]))
  }

  function Ordered(probabilities: seq<real>, labels: seq<real>): seq<Point>
    requires |probabilities| == |labels|
  {
    SortBy(NoGreater, Zip(probabilities, labels))
  }

  function CalibratorOf(blocks: seq<Block>): Calibrator
    requires Counted(blocks)
  {
    Calibrator(seq(|blocks|, k requires 0 <= k < |blocks| => blocks[k].upper),
               seq(|blocks|, k requires 0 <= k < |blocks| => Mean(blocks[k])))
  }

  method FitIsotonic(probabilities: seq<real>, labels: seq<real>) returns (r: FitResult)
    ensures r == if |probabilities| != |labels| || probabilities == [] then ValueError
                 else Fitted(CalibratorOf(Pool(Ordered(probabilities, labels))))
  {
    if |probabilities| != |labels| || probabilities == [] {
      return ValueError;
    }
    hide Mean, SortBy;
    var ordered := SortBy(NoGreater, Zip(probabilities, labels));
    var blocks: seq<Block> := [];
    for i := 0 to |ordered|
      invariant Counted(blocks) && blocks == Pool(ordered[..i])
    {
      assert ordered[..i + 1][..i] == ordered[..i];
      blocks := blocks + [Block(ordered[i].probability, ordered[i].outcome, 1)];
      while |blocks| >= 2
        invariant Counted(blocks) && Settle(blocks) == Pool(ordered[..i + 1])
        decreases |blocks|
      {
        var previous, current := Mean(blocks[|blocks| - 2]), Mean(blocks[|blocks| - 1]);
        if previous <= current {
          break;
        }
        blocks := blocks[..|blocks| - 2] + [Merge(blocks[|blocks| - 2], blocks[|blocks| - 1])];
      }
    }
    assert ordered[..|ordered|] == ordered;
    r := Fitted(CalibratorOf(blocks));
  }

  // --- what a block says about the points under it ---

  ghost function PrefixSum(points: seq<Point>, k: nat): real
    requires k <= |points|
  {
    if k == 0 then 0.0 else PrefixSum(points, k - 1) + points[k - 1].outcome
  }

  /** Every prefix averages at least `mu`. */
  ghost predicate FrontHeavy(points: seq<Point>, mu: real) {
    forall k :: 0 <= k <= |points| ==> PrefixSum(points, k) >= mu * k as real
  }

  ghost predicate Covers(b: Block, points: seq<Point>) {
    && 0 < b.count == |points|
    && b.sum == PrefixSum(points, |points|)
    && b.upper == points[|points| - 1].probability
    && FrontHeavy(points, Mean(b))
  }

  /** The blocks cut the points into consecutive runs. */
  ghost predicate Tiles(blocks: seq<Block>, points: seq<Point>) {
    if blocks == [] then points == []
    else
      var b := blocks[|blocks| - 1];
      && b.count <= |points|
      && Covers(b, points[|points| - b.count..])
      && Tiles(blocks[..|blocks| - 1], points[..|points| - b.count])
  }

  ghost predicate Rising(blocks: seq<Block>)
    requires Counted(blocks)
  {
    forall i, j :: 0 <= i < j < |blocks| ==> Mean(blocks[i]) <= Mean(blocks[j])
  }

  ghost function Product(x: real, y: real): real {
    x * y
  }

  lemma MeanProduct(b: Block)
    requires b.count > 0
    ensures Product(Mean(b), b.count as real) == b.sum
  {
  }

  lemma {:induction false} PrefixSumJoin(a: seq<Point>, b: seq<Point>, k: nat)
    requires k <= |a| + |b|
    ensures PrefixSum(a + b, k)
            == if k <= |a| then PrefixSum(a, k) else PrefixSum(a, |a|) + PrefixSum(b, k - |a|)
  {
    if k == 0 {
    } else {
      PrefixSumJoin(a, b, k - 1);
    }
  }

  lemma TimesMonotone(p: real, q: real, z: real)
    requires p >= q && z >= 0.0
    ensures p * z >= q * z
  {
  }

  /** A pooled mean lies between the means it pools. */
  lemma Between(alpha: real, beta: real, mu: real, x: real, y: real)
    requires x > 0.0 && y > 0.0 && alpha >= beta
    requires mu * (x + y) == alpha * x + beta * y
    ensures beta <= mu <= alpha
  {
    assert mu > alpha ==> mu * x > alpha * x && mu * y > beta * y;
    assert mu < beta ==> mu * x < alpha * x && mu * y < beta * y;
  }

  /** The second run, on top of all of the first, still averages at least the pooled mean. */
  lemma SecondRun(alpha: real, beta: real, mu: real, x: real, y: real, r: real)
    requires mu * (x + y) == alpha * x + beta * y && mu >= beta && 0.0 <= r <= y
    ensures alpha * x + beta * r >= mu * (x + r)
  {
    TimesMonotone(mu, beta, y - r);
    assert mu * (x + r) + mu * (y - r) == mu * (x + y);
    assert beta * r + beta * (y - r) == beta * y;
  }

  /** The prefix of the first run still averages at least the pooled mean. */
  lemma FirstRun(alpha: real, beta: real, mu: real, x: real, y: real, r: real)
    requires x > 0.0 && y > 0.0 && alpha >= beta && r >= 0.0
    requires mu * (x + y) == alpha * x + beta * y
    ensures alpha * r >= mu * r
  {
    Between(alpha, beta, mu, x, y);
    TimesMonotone(alpha, mu, r);
  }

  /** The prefix sum `s` of the two runs, `r` points long, against the pooled mean. */
  lemma PooledPrefix(alpha: real, beta: real, mu: real, x: real, y: real, first: real, r: real, s: real)
    requires x > 0.0 && y > 0.0 && alpha >= beta && 0.0 <= r <= x + y && first == Product(alpha, x)
    requires Product(mu, x + y) == Product(alpha, x) + Product(beta, y)
    requires r <= x ==> s >= Product(alpha, r)
    requires r > x ==> s >= first + Product(beta, r - x)
    ensures s >= Product(mu, r)
  {
    if r <= x {
      FirstRun(alpha, beta, mu, x, y, r);
    } else {
      Between(alpha, beta, mu, x, y);
      SecondRun(alpha, beta, mu, x, y, r - x);
      assert x + (r - x) == r;
    }
  }

  lemma FrontHeavyAt(points: seq<Point>, mu: real, k: nat)
    requires FrontHeavy(points, mu) && k <= |points|
    ensures PrefixSum(points, k) >= Product(mu, k as real)
  {
  }

  lemma FrontHeavyFrom(points: seq<Point>, mu: real)
    requires forall k :: 0 <= k <= |points| ==> PrefixSum(points, k) >= Product(mu, k as real)
    ensures FrontHeavy(points, mu)
  {
    hide PrefixSum;
  }

  lemma PooledFrontHeavy(a: seq<Point>, b: seq<Point>, alpha: real, beta: real, mu: real, k: nat)
    requires |a| > 0 && |b| > 0 && alpha >= beta && k <= |a| + |b|
    requires FrontHeavy(a, alpha) && FrontHeavy(b, beta)
    requires PrefixSum(a, |a|) == Product(alpha, |a| as real)
    requires Product(mu, |a| as real + |b| as real) == Product(alpha, |a| as real) + Product(beta, |b| as real)
    ensures PrefixSum(a + b, k) >= Product(mu, k as real)
  {
    hide PrefixSum, FrontHeavy, Product;
    PrefixSumJoin(a, b, k);
    if k <= |a| {
      FrontHeavyAt(a, alpha, k);
    } else {
      FrontHeavyAt(b, beta, k - |a|);
      assert (k - |a|) as real == k as real - |a| as real;
    }
    PooledPrefix(alpha, beta, mu, |a| as real, |b| as real, PrefixSum(a, |a|), k as real, PrefixSum(a + b, k));
  }

  lemma MergeCovers(left: Block, right: Block, a: seq<Point>, b: seq<Point>)
    requires Covers(left, a) && Covers(right, b) && Mean(left) >= Mean(right)
    ensures Covers(Merge(left, right), a + b)
  {
    hide Mean, PrefixSum, FrontHeavy, Product;
    var m := Merge(left, right);
    MeanProduct(left);
    MeanProduct(right);
    MeanProduct(m);
    PrefixSumJoin(a, b, |a| + |b|);
    assert m.count as real == |a| as real + |b| as real;
    forall k | 0 <= k <= |a + b| ensures PrefixSum(a + b, k) >= Product(Mean(m), k as real) {
      PooledFrontHeavy(a, b, Mean(left), Mean(right), Mean(m), k);
    }
    FrontHeavyFrom(a + b, Mean(m));
  }

  lemma {:induction false} SettleTiles(blocks: seq<Block>, points: seq<Point>)
    requires Counted(blocks) && Tiles(blocks, points)
    requires blocks != [] && Rising(blocks[..|blocks| - 1])
    ensures Tiles(Settle(blocks), points) && Rising(Settle(blocks))
    decreases |blocks|
  {
    var n := |blocks|;
    if n >= 2 && Mean(blocks[n - 2]) > Mean(blocks[n - 1]) {
      var left, right := blocks[n - 2], blocks[n - 1];
      var rest := points[..|points| - right.count];
      var a, b := rest[|rest| - left.count..], points[|points| - right.count..];
      assert blocks[..n - 1][..n - 2] == blocks[..n - 2];
      MergeCovers(left, right, a, b);
      var pooled := blocks[..n - 2] + [Merge(left, right)];
      assert points[|points| - (left.count + right.count)..] == a + b;
      assert rest[..|rest| - left.count] == points[..|points| - (left.count + right.count)];
      assert pooled[..n - 2] == blocks[..n - 2];
      SettleTiles(pooled, points);
    }
  }

  /** The pooled blocks cut the points into front-heavy runs with rising means. */
  lemma {:induction false} PoolTiles(points: seq<Point>)
    ensures Tiles(Pool(points), points) && Rising(Pool(points))
  {
    if points == [] {
    } else {
      var t, last := points[..|points| - 1], points[|points| - 1];
      PoolTiles(t);
      var b := Block(last.probability, last.outcome, 1);
      var blocks := Pool(t) + [b];
      assert points[|points| - 1..] == [last];
      assert Mean(b) == last.outcome;
      assert PrefixSum([last], 1) == PrefixSum([last], 0) + last.outcome;
      assert Covers(b, [last]);
      assert blocks[..|blocks| - 1] == Pool(t);
      SettleTiles(blocks, points);
    }
  }

  // --- least squares ---

  ghost function Square(x: real): real {
    x * x
  }

  /** The squared error of the fit `f` on the first `k` points. */
  ghost function Loss(points: seq<Point>, f: seq<real>, k: nat): real
    requires k <= |points| && k <= |f|
  {
    if k == 0 then 0.0 else Loss(points, f, k - 1) + Square(points[k - 1].outcome - f[k - 1])
  }

  ghost function Distance(f: seq<real>, g: seq<real>, k: nat): real
    requires k <= |f| && k <= |g|
  {
    if k == 0 then 0.0 else Distance(f, g, k - 1) + Square(f[k - 1] - g[k - 1])
  }

  ghost predicate NonDecreasing(g: seq<real>) {
    forall i, j :: 0 <= i < j < |g| ==> g[i] <= g[j]
  }

  ghost function Constant(x: real, n: nat): seq<real> {
    seq(n, _ => x)
  }

  /** The residuals from `mu`, weighted by `g`. */
  ghost function Weighted(points: seq<Point>, mu: real, g: seq<real>, k: nat): real
    requires k <= |points| && k <= |g|
  {
    if k == 0 then 0.0 else Weighted(points, mu, g, k - 1) + Product(points[k - 1].outcome - mu, g[k - 1])
  }

  ghost function Residual(points: seq<Point>, mu: real, k: nat): real
    requires k <= |points|
  {
    PrefixSum(points, k) - mu * k as real
  }

  lemma ResidualStep(points: seq<Point>, mu: real, k: nat)
    requires 0 < k <= |points|
    ensures Residual(points, mu, k) == Residual(points, mu, k - 1) + (points[k - 1].outcome - mu)
  {
    assert mu * k as real == mu * (k - 1) as real + mu;
  }

  lemma PartsStep(w: real, r: real, y: real, g: real, g': real)
    requires w <= Product(r, g) && r >= 0.0 && g <= g'
    ensures w + Product(y, g') <= Product(r + y, g')
  {
    TimesMonotone(g', g, r);
    assert (r + y) * g' == r * g' + y * g';
  }

  /** Summation by parts: front-heavy residuals weigh at most their total times the last weight. */
  lemma {:induction false} WeightedBound(points: seq<Point>, mu: real, g: seq<real>, k: nat)
    requires 0 < k <= |points| && k <= |g|
    requires FrontHeavy(points, mu) && NonDecreasing(g)
    ensures Weighted(points, mu, g, k) <= Product(Residual(points, mu, k), g[k - 1])
  {
    ResidualStep(points, mu, k);
    if k > 1 {
      WeightedBound(points, mu, g, k - 1);
      assert PrefixSum(points, k - 1) >= mu * (k - 1) as real;
      hide Product;
      PartsStep(Weighted(points, mu, g, k - 1), Residual(points, mu, k - 1), points[k - 1].outcome - mu,
                g[k - 2], g[k - 1]);
    } else {
      assert Residual(points, mu, 0) == 0.0;
      hide Product, Residual;
      assert Weighted(points, mu, g, 0) == 0.0;
    }
  }

  lemma SplitStep(l: real, lc: real, d: real, r: real, w: real, mu: real, y: real, g: real)
    requires l == lc + d + 2.0 * Product(mu, r) - 2.0 * w
    ensures l + Square(y - g)
            == (lc + Square(y - mu)) + (d + Square(mu - g))
               + 2.0 * Product(mu, r + (y - mu)) - 2.0 * (w + Product(y - mu, g))
  {
    assert mu * (r + (y - mu)) == mu * r + mu * (y - mu);
    assert Square(y - g) == Square(y - mu) + Square(mu - g) + 2.0 * (mu * (y - mu)) - 2.0 * ((y - mu) * g);
  }

  lemma {:induction false} LossSplit(points: seq<Point>, mu: real, g: seq<real>, k: nat)
    requires k <= |points| && k <= |g|
    ensures Loss(points, g, k)
            == Loss(points, Constant(mu, |g|), k) + Distance(Constant(mu, |g|), g, k)
               + 2.0 * Product(mu, Residual(points, mu, k)) - 2.0 * Weighted(points, mu, g, k)
  {
    if k == 0 {
      assert Residual(points, mu, 0) == 0.0;
    } else {
      hide Square, Residual, Product;
      var f := Constant(mu, |g|);
      LossSplit(points, mu, g, k - 1);
      ResidualStep(points, mu, k);
      SplitStep(Loss(points, g, k - 1), Loss(points, f, k - 1), Distance(f, g, k - 1),
                Residual(points, mu, k - 1), Weighted(points, mu, g, k - 1), mu, points[k - 1].outcome, g[k - 1]);
    }
  }

  /** On one block, the mean beats every non-decreasing fit by at least their squared distance. */
  lemma BlockOptimal(b: Block, points: seq<Point>, g: seq<real>)
    requires Covers(b, points) && |g| == |points| && NonDecreasing(g)
    ensures Loss(points, g, |g|)
            >= Loss(points, Constant(Mean(b), |g|), |g|) + Distance(Constant(Mean(b), |g|), g, |g|)
  {
    hide Mean, Loss, Distance, Weighted, FrontHeavy, PrefixSum, NonDecreasing;
    MeanProduct(b);
    LossSplit(points, Mean(b), g, |g|);
    WeightedBound(points, Mean(b), g, |g|);
    assert Residual(points, Mean(b), |g|) == 0.0;
  }

  /** The value the blocks give each point. */
  ghost function Fit(blocks: seq<Block>): seq<real>
    requires Counted(blocks)
  {
    if blocks == [] then []
    else
      var b := blocks[|blocks| - 1];
      Fit(blocks[..|blocks| - 1]) + Constant(Mean(b), b.count)
  }

  lemma {:induction false} LossJoin(a: seq<Point>, b: seq<Point>, f: seq<real>, g: seq<real>, k: nat)
    requires |a| == |f| && |b| == |g| && k <= |b|
    ensures Loss(a + b, f + g, |a| + k) == Loss(a, f, |a|) + Loss(b, g, k)
  {
    if k > 0 {
      LossJoin(a, b, f, g, k - 1);
    } else {
      LossPrefix(a, b, f, g, |a|);
    }
  }

  lemma {:induction false} LossPrefix(a: seq<Point>, b: seq<Point>, f: seq<real>, g: seq<real>, k: nat)
    requires |a| == |f| && k <= |a|
    ensures Loss(a + b, f + g, k) == Loss(a, f, k)
  {
    if k == 0 {
    } else {
      LossPrefix(a, b, f, g, k - 1);
    }
  }

  lemma {:induction false} DistanceJoin(f: seq<real>, f': seq<real>, g: seq<real>, g': seq<real>, k: nat)
    requires |f| == |g| && |f'| == |g'| && k <= |f'|
    ensures Distance(f + f', g + g', |f| + k) == Distance(f, g, |f|) + Distance(f', g', k)
  {
    if k > 0 {
      DistanceJoin(f, f', g, g', k - 1);
    } else {
      DistancePrefix(f, f', g, g', |f|);
    }
  }

  lemma {:induction false} DistancePrefix(f: seq<real>, f': seq<real>, g: seq<real>, g': seq<real>, k: nat)
    requires |f| == |g| && k <= |f|
    ensures Distance(f + f', g + g', k) == Distance(f, g, k)
  {
    if k == 0 {
    } else {
      DistancePrefix(f, f', g, g', k - 1);
    }
  }

  lemma {:induction false} FitLength(blocks: seq<Block>, points: seq<Point>)
    requires Counted(blocks) && Tiles(blocks, points)
    ensures |Fit(blocks)| == |points|
  {
    if blocks == [] {
    } else {
      FitLength(blocks[..|blocks| - 1], points[..|points| - blocks[|blocks| - 1].count]);
    }
  }

  lemma FitJoin(b: Block, points: seq<Point>, n: nat, f: seq<real>, g: seq<real>)
    requires b.count > 0 && n + b.count == |points| && |f| == n && |g| == |points|
    requires Covers(b, points[n..]) && NonDecreasing(g)
    requires Loss(points[..n], g[..n], n) >= Loss(points[..n], f, n) + Distance(f, g[..n], n)
    ensures var h := f + Constant(Mean(b), b.count);
            Loss(points, g, |g|) >= Loss(points, h, |g|) + Distance(h, g, |g|)
  {
    hide Mean, Loss, Distance, Covers, FrontHeavy;
    var c := Constant(Mean(b), b.count);
    BlockOptimal(b, points[n..], g[n..]);
    assert points == points[..n] + points[n..] && g == g[..n] + g[n..];
    LossJoin(points[..n], points[n..], g[..n], g[n..], b.count);
    LossJoin(points[..n], points[n..], f, c, b.count);
    DistanceJoin(f, c, g[..n], g[n..], b.count);
  }

  /** The block fit is the least-squares non-decreasing fit, and the only one: any other loses by
      at least its squared distance from it. */
  lemma {:induction false} FitOptimal(blocks: seq<Block>, points: seq<Point>, g: seq<real>)
    requires Counted(blocks) && Tiles(blocks, points) && |g| == |points| && NonDecreasing(g)
    ensures |Fit(blocks)| == |points|
    ensures Loss(points, g, |g|)
            >= Loss(points, Fit(blocks), |g|) + Distance(Fit(blocks), g, |g|)
  {
    FitLength(blocks, points);
    if blocks == [] {
    } else {
      hide Loss, Distance, Covers, Mean;
      var b := blocks[|blocks| - 1];
      var n := |points| - b.count;
      FitLength(blocks[..|blocks| - 1], points[..n]);
      FitOptimal(blocks[..|blocks| - 1], points[..n], g[..n]);
      FitJoin(b, points, n, Fit(blocks[..|blocks| - 1]), g);
    }
  }

  /** For any data the fit is given, its blocks rise, cover the sorted points, and beat every
      non-decreasing fit `g` of them by at least the squared distance between the two. */
  lemma PooledFitOptimal(probabilities: seq<real>, labels: seq<real>, g: seq<real>)
    requires |probabilities| == |labels| == |g| && NonDecreasing(g)
    ensures var points := Ordered(probabilities, labels);
            && Sorted(NoGreater, points) && multiset(points) == multiset(Zip(probabilities, labels))
            && Tiles(Pool(points), points) && Rising(Pool(points))
            && |Fit(Pool(points))| == |points| == |g|
            && Loss(points, g, |g|)
               >= Loss(points, Fit(Pool(points)), |g|) + Distance(Fit(Pool(points)), g, |g|)
  {
    var points := Ordered(probabilities, labels);
    SortBySorted(NoGreater, Zip(probabilities, labels));
    PoolTiles(points);
    FitOptimal(Pool(points), points, g);
  }

  /** The block sums and counts add up to the data's. */
  lemma {:induction false} BlocksConserve(blocks: seq<Block>, points: seq<Point>)
    requires Tiles(blocks, points)
    ensures CountSum(blocks) == |points|
    ensures LabelSum(blocks) == PrefixSum(points, |points|)
  {
    if blocks == [] {
    } else {
      var b := blocks[|blocks| - 1];
      var n := |points| - b.count;
      BlocksConserve(blocks[..|blocks| - 1], points[..n]);
      PrefixSumJoin(points[..n], points[n..], |points|);
      assert points == points[..n] + points[n..];
    }
  }

  ghost function CountSum(blocks: seq<Block>): nat {
    if blocks == [] then 0 else CountSum(blocks[..|blocks| - 1]) + blocks[|blocks| - 1].count
  }

  ghost function LabelSum(blocks: seq<Block>): real {
    if blocks == [] then 0.0 else LabelSum(blocks[..|blocks| - 1]) + blocks[|blocks| - 1].sum
  }

  // --- the calibrator ---

  function Value(c: Calibrator, p: real, from: nat): real
    requires |c.values| == |c.upperBounds| > 0 && from <= |c.values|
    decreases |c.values| - from
  {
    if from == |c.values| then c.values[|c.values| - 1]
    else if p <= c.upperBounds[from] then c.values[from]
    else Value(c, p, from + 1)
  }

  method ApplyIsotonic(probabilities: seq<real>, c: Calibrator) returns (values: seq<real>)
    requires |c.values| == |c.upperBounds| > 0
    ensures values == seq(|probabilities|, k requires 0 <= k < |probabilities| => Value(c, probabilities[k], 0))
  {
    values := [];
    for i := 0 to |probabilities|
      invariant values == seq(i, k requires 0 <= k < i => Value(c, probabilities[k], 0))
    {
      var index := 0;
      while index < |c.upperBounds| && probabilities[i] > c.upperBounds[index]
        invariant index <= |c.upperBounds|
        invariant Value(c, probabilities[i], index) == Value(c, probabilities[i], 0)
      {
        index := index + 1;
      }
      if index == |c.upperBounds| {
        index := |c.values| - 1;
      }
      values := values + [c.values[index]];
    }
  }

  /** The calibrator fitted to some data. */
  ghost predicate FittedTo(c: Calibrator, points: seq<Point>) {
    points != [] && c == CalibratorOf(Pool(points))
  }

  lemma FittedShape(c: Calibrator, points: seq<Point>)
    requires FittedTo(c, points)
    ensures |c.values| == |c.upperBounds| > 0 && NonDecreasing(c.values)
  {
    PoolTiles(points);
  }

  /** A higher probability never calibrates lower. */
  lemma {:induction false} ValueMonotone(c: Calibrator, p: real, q: real, from: nat)
    requires |c.values| == |c.upperBounds| > 0 && from <= |c.values| && NonDecreasing(c.values)
    requires p <= q
    ensures Value(c, p, from) <= Value(c, q, from)
    ensures from < |c.values| ==> c.values[from] <= Value(c, p, from)
    decreases |c.values| - from
  {
    if from < |c.values| {
      ValueMonotone(c, p, q, from + 1);
    }
  }

  lemma ApplyMonotone(c: Calibrator, points: seq<Point>, p: real, q: real)
    requires FittedTo(c, points) && p <= q
    ensures |c.values| == |c.upperBounds| > 0
    ensures Value(c, p, 0) <= Value(c, q, 0)
  {
    FittedShape(c, points);
    ValueMonotone(c, p, q, 0);
  }

  lemma {:induction false} PrefixSumRange(points: seq<Point>, k: nat)
    requires k <= |points| && forall i :: 0 <= i < |points| ==> 0.0 <= points[i].outcome <= 1.0
    ensures 0.0 <= PrefixSum(points, k) <= k as real
  {
    if k == 0 {
    } else {
      PrefixSumRange(points, k - 1);
    }
  }

  lemma QuotientRange(x: real, y: real)
    requires 0.0 <= x <= y && y > 0.0
    ensures 0.0 <= x / y <= 1.0
  {
  }

  lemma {:induction false} MeansInRange(blocks: seq<Block>, points: seq<Point>, k: nat)
    requires Counted(blocks) && Tiles(blocks, points) && k < |blocks|
    requires forall i :: 0 <= i < |points| ==> 0.0 <= points[i].outcome <= 1.0
    ensures 0.0 <= Mean(blocks[k]) <= 1.0
  {
    var b := blocks[|blocks| - 1];
    var n := |points| - b.count;
    if k < |blocks| - 1 {
      MeansInRange(blocks[..|blocks| - 1], points[..n], k);
    } else {
      PrefixSumRange(points[n..], b.count);
      QuotientRange(b.sum, b.count as real);
    }
  }

  lemma {:induction false} ValueInRange(c: Calibrator, p: real, from: nat)
    requires |c.values| == |c.upperBounds| > 0 && from <= |c.values|
    requires forall k :: 0 <= k < |c.values| ==> 0.0 <= c.values[k] <= 1.0
    ensures 0.0 <= Value(c, p, from) <= 1.0
    decreases |c.values| - from
  {
    if from < |c.values| { ValueInRange(c, p, from + 1); }
  }

  /** On labels between 0 and 1 every calibrated value is a probability. */
  lemma ApplyInRange(c: Calibrator, points: seq<Point>, p: real)
    requires FittedTo(c, points)
    requires forall i :: 0 <= i < |points| ==> 0.0 <= points[i].outcome <= 1.0
    ensures |c.values| == |c.upperBounds| > 0
    ensures 0.0 <= Value(c, p, 0) <= 1.0
  {
    FittedShape(c, points);
    PoolTiles(points);
    forall k | 0 <= k < |c.values| ensures 0.0 <= c.values[k] <= 1.0 {
      MeansInRange(Pool(points), points, k);
    }
    ValueInRange(c, p, 0);
  }

  lemma {:induction false} DistancePositive(f: seq<real>, g: seq<real>, k: nat)
    requires k <= |f| && k <= |g|
    ensures Distance(f, g, k) >= 0.0
  {
    if k == 0 {
    } else {
      DistancePositive(f, g, k - 1);
    }
  }
}
