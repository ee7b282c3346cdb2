/** Binned calibration error and the reliability diagram (packages/evaluation/calibration.py). */
module CalibrationError {

  datatype Prediction = Prediction(probability: real, outcome: real)

  datatype Row = Row(lower: real, upper: real, count: nat, meanConfidence: real, accuracy: real)

  datatype Checked<T> = Value(value: T) | ValueError

  function Abs(x: real): real {
    if x < 0.0 then -x else x
  }

  function Clip(p: real): real {
    if p < 0.0 then 0.0 else if p > 1.0 then 1.0 else p
  }

  /** The bin of a probability; everything at or above the last edge goes in the last bin. */
  function Bin(p: real, bins: nat): (b: nat)
    requires bins > 0
    ensures b < bins
  {
    var scaled := Clip(p) * bins as real;
    assert scaled >= 0.0;
    if scaled.Floor < bins - 1 then scaled.Floor else bins - 1
  }

  /** Where bin `b` starts. */
  function Edge(b: nat, bins: nat): real
    requires bins > 0
  {
    b as real / bins as real
  }

  /** The sum of `w` over the first `k` predictions that fall in bin `b`. */
  function BinSum(w: Prediction -> real, ps: seq<Prediction>, bins: nat, b: nat, k: nat): real
    requires bins > 0 && k <= |ps|
  {
    if k == 0 then 0.0
    else BinSum(w, ps, bins, b, k - 1) + if Bin(ps[k - 1].probability, bins) == b then w(ps[k - 1]) else 0.0
  }

  function BinCount(ps: seq<Prediction>, bins: nat, b: nat, k: nat): nat
    requires bins > 0 && k <= |ps|
  {
    if k == 0 then 0
    else BinCount(ps, bins, b, k - 1) + if Bin(ps[k - 1].probability, bins) == b then 1 else 0
  }

  function Confidence(): Prediction -> real {
    (p: Prediction) => p.probability
  }

  function Outcome(): Prediction -> real {
    (p: Prediction) => p.outcome
  }

  function MeanOf(w: Prediction -> real, ps: seq<Prediction>, bins: nat, b: nat): real
    requires bins > 0 && BinCount(ps, bins, b, |ps|) > 0
  {
    BinSum(w, ps, bins, b, |ps|) / BinCount(ps, bins, b, |ps|) as real
  }

  /** What bin `b` adds to the error: its share of the data times its calibration gap. */
  function BinError(ps: seq<Prediction>, bins: nat, b: nat): real
    requires bins > 0 && ps != []
  {
    if BinCount(ps, bins, b, |ps|) == 0 then 0.0
    else BinCount(ps, bins, b, |ps|) as real / |ps| as real
         * Abs(MeanOf(Outcome(), ps, bins, b) - MeanOf(Confidence(), ps, bins, b))
  }

  function ErrorTo(ps: seq<Prediction>, bins: nat, k: nat): real
    requires bins > 0 && ps != []
  {
    if k == 0 then 0.0 else ErrorTo(ps, bins, k - 1) + BinError(ps, bins, k - 1)
  }

  function Predictions(probabilities: seq<real>, labels: seq<real>): (ps: seq<Prediction>)
    requires |probabilities| == |labels|
    ensures |ps| == |probabilities|
  {
    seq(|probabilities|, k requires 0 <= k < |probabilities| => Prediction(probabilities[k], labels[k]))
  }

  method ExpectedCalibrationError(probabilities: seq<real>, labels: seq<real>, bins: int) returns (r: Checked<real>)
    ensures r == if |probabilities| != |labels| || probabilities == [] || bins <= 0 then ValueError
                 else Value(ErrorTo(Predictions(probabilities, labels), bins, bins))
  {
    if |probabilities| != |labels| || probabilities == [] {
      return ValueError;
    }
    if bins <= 0 {
      return ValueError;
    }
    var ps := Predictions(probabilities, labels);
    var ece := 0.0;
    for b := 0 to bins
      invariant ece == ErrorTo(ps, bins, b)
    {
      var count := BinCount(ps, bins, b, |ps|);
      if count > 0 {
        ece := ece + count as real / |ps| as real
                     * Abs(MeanOf(Outcome(), ps, bins, b) - MeanOf(Confidence(), ps, bins, b));
      }
    }
    r := Value(ece);
  }

  function RowOf(ps: seq<Prediction>, bins: nat, b: nat): Row
    requires bins > 0 && BinCount(ps, bins, b, |ps|) > 0
  {
    Row(Edge(b, bins), Edge(b + 1, bins), BinCount(ps, bins, b, |ps|),
        MeanOf(Confidence(), ps, bins, b), MeanOf(Outcome(), ps, bins, b))
  }

  function RowsTo(ps: seq<Prediction>, bins: nat, k: nat): seq<Row>
    requires bins > 0
  {
    if k == 0 then []
    else if BinCount(ps, bins, k - 1, |ps|) == 0 then RowsTo(ps, bins, k - 1)
    else RowsTo(ps, bins, k - 1) + [RowOf(ps, bins, k - 1)]
  }

  /** As in the source, a bin count of zero or less gives no rows rather than an error. */
  method ReliabilityDiagramData(probabilities: seq<real>, labels: seq<real>, bins: int) returns (r: Checked<seq<Row>>)
    ensures r == if |probabilities| != |labels| || probabilities == [] then ValueError
                 else Value(if bins <= 0 then [] else RowsTo(Predictions(probabilities, labels), bins, bins))
  {
    if |probabilities| != |labels| || probabilities == [] {
      return ValueError;
    }
    var ps := Predictions(probabilities, labels);
    var rows := [];
    if bins > 0 {
      for b := 0 to bins
        invariant rows == RowsTo(ps, bins, b)
      {
        if BinCount(ps, bins, b, |ps|) > 0 {
          rows := rows + [RowOf(ps, bins, b)];
        }
      }
    }
    r := Value(rows);
  }

  // --- every prediction is in one bin ---

  ghost function Sum(w: Prediction -> real, ps: seq<Prediction>, k: nat): real
    requires k <= |ps|
  {
    if k == 0 then 0.0 else Sum(w, ps, k - 1) + w(ps[k - 1])
  }

  ghost function AcrossBins(w: Prediction -> real, ps: seq<Prediction>, bins: nat, n: nat, k: nat): real
    requires bins > 0 && k <= |ps|
  {
    if n == 0 then 0.0 else AcrossBins(w, ps, bins, n - 1, k) + BinSum(w, ps, bins, n - 1, k)
  }

  lemma {:induction false} AcrossStep(w: Prediction -> real, ps: seq<Prediction>, bins: nat, n: nat, k: nat)
    requires bins > 0 && 0 < k <= |ps|
    ensures AcrossBins(w, ps, bins, n, k) == AcrossBins(w, ps, bins, n, k - 1)
            + if Bin(ps[k - 1].probability, bins) < n then w(ps[k - 1]) else 0.0
  {
    if n == 0 {
    } else {
      AcrossStep(w, ps, bins, n - 1, k);
    }
  }

  lemma {:induction false} AcrossNone(w: Prediction -> real, ps: seq<Prediction>, bins: nat, n: nat)
    requires bins > 0
    ensures AcrossBins(w, ps, bins, n, 0) == 0.0
  {
    if n == 0 {
    } else {
      AcrossNone(w, ps, bins, n - 1);
    }
  }

  /** Summing over the bins is summing over the data. */
  lemma {:induction false} BinsPartition(w: Prediction -> real, ps: seq<Prediction>, bins: nat, k: nat)
    requires bins > 0 && k <= |ps|
    ensures AcrossBins(w, ps, bins, bins, k) == Sum(w, ps, k)
  {
    if k == 0 {
      AcrossNone(w, ps, bins, bins);
    } else {
      BinsPartition(w, ps, bins, k - 1);
      AcrossStep(w, ps, bins, bins, k);
    }
  }

  ghost function RowCounts(rows: seq<Row>): nat {
    if rows == [] then 0 else RowCounts(rows[..|rows| - 1]) + rows[|rows| - 1].count
  }

  lemma {:induction false} CountIsBinSum(ps: seq<Prediction>, bins: nat, b: nat, k: nat)
    requires bins > 0 && k <= |ps|
    ensures BinCount(ps, bins, b, k) as real == BinSum(_ => 1.0, ps, bins, b, k)
  {
    if k == 0 {
    } else {
      CountIsBinSum(ps, bins, b, k - 1);
    }
  }

  lemma {:induction false} RowCountsAcross(ps: seq<Prediction>, bins: nat, k: nat)
    requires bins > 0
    ensures RowCounts(RowsTo(ps, bins, k)) as real == AcrossBins(_ => 1.0, ps, bins, k, |ps|)
  {
    if k == 0 {
    } else {
      RowCountsAcross(ps, bins, k - 1);
      CountIsBinSum(ps, bins, k - 1, |ps|);
    }
  }

  lemma {:induction false} SumOnes(ps: seq<Prediction>, k: nat)
    requires k <= |ps|
    ensures Sum(_ => 1.0, ps, k) == k as real
  {
    if k == 0 {
    } else {
      SumOnes(ps, k - 1);
    }
  }

  /** The diagram's counts add up to the number of predictions. */
  lemma RowsCountEverything(ps: seq<Prediction>, bins: nat)
    requires bins > 0
    ensures RowCounts(RowsTo(ps, bins, bins)) == |ps|
  {
    RowCountsAcross(ps, bins, bins);
    BinsPartition(_ => 1.0, ps, bins, |ps|);
    SumOnes(ps, |ps|);
  }

  /** The count-weighted gaps of the diagram's rows. */
  ghost function RowGaps(rows: seq<Row>, n: nat): real
    requires n > 0
  {
    if rows == [] then 0.0
    else
      var row := rows[|rows| - 1];
      RowGaps(rows[..|rows| - 1], n) + row.count as real / n as real * Abs(row.accuracy - row.meanConfidence)
  }

  /** The error is read off the diagram. */
  lemma {:induction false} ErrorFromDiagram(ps: seq<Prediction>, bins: nat, k: nat)
    requires bins > 0 && ps != []
    ensures ErrorTo(ps, bins, k) == RowGaps(RowsTo(ps, bins, k), |ps|)
  {
    if k > 0 {
      ErrorFromDiagram(ps, bins, k - 1);
      var t := RowsTo(ps, bins, k - 1);
      if BinCount(ps, bins, k - 1, |ps|) > 0 {
        assert (t + [RowOf(ps, bins, k - 1)])[..|t|] == t;
      }
    }
  }

  // --- what the bins hold ---

  lemma EdgeBelow(x: real, b: nat, bins: nat)
    requires bins > 0
    ensures Edge(b, bins) <= x <==> b as real <= Scale(x, bins as real)
  {
    assert Scale(Edge(b, bins), bins as real) == b as real by { ScaleQuotient(b as real, bins as real); }
    hide Scale, Edge;
    ScaleOrder(Edge(b, bins), x, bins as real);
  }

  lemma ScaleQuotient(x: real, n: real)
    requires n > 0.0
    ensures Scale(x / n, n) == x
  {
  }

  lemma UnitTimes(x: real, n: real)
    requires 0.0 <= x <= 1.0 && n >= 0.0
    ensures 0.0 <= Scale(x, n) <= n
  {
    ScaleSign(x, n);
    ScaleSign(1.0 - x, n);
    ScaleAdd(x, 1.0 - x, n);
    assert Scale(1.0, n) == n;
    hide Scale;
    assert x + (1.0 - x) == 1.0;
  }

  lemma ScaleSign(x: real, n: real)
    requires n >= 0.0
    ensures x >= 0.0 ==> Scale(x, n) >= 0.0
  {
  }

  lemma ScaleOrder(x: real, y: real, n: real)
    requires n > 0.0
    ensures x <= y <==> Scale(x, n) <= Scale(y, n)
  {
    ScaleAdd(x, y - x, n);
    ScaleAdd(y, x - y, n);
    ScaleStrict(y - x, n);
    ScaleStrict(x - y, n);
    hide Scale;
  }

  lemma ScaleStrict(x: real, n: real)
    requires n > 0.0
    ensures x >= 0.0 ==> Scale(x, n) >= 0.0
    ensures x > 0.0 ==> Scale(x, n) > 0.0
  {
  }

  /** A probability, clipped to the unit interval, is in the bin between whose edges it lies; the last bin
      takes in its upper edge. */
  lemma BinExactly(p: real, bins: nat, b: nat)
    requires bins > 0
    ensures Bin(p, bins) == b <==>
            var c := if p < 0.0 then 0.0 else if p > 1.0 then 1.0 else p;
            b < bins && Edge(b, bins) <= c && (c < Edge(b + 1, bins) || b == bins - 1)
  {
    BinClipped(p, bins, b);
    hide Edge, Bin;
  }

  lemma BinClipped(p: real, bins: nat, b: nat)
    requires bins > 0
    ensures Bin(p, bins) == b <==>
            b < bins && Edge(b, bins) <= Clip(p) && (Clip(p) < Edge(b + 1, bins) || b == bins - 1)
  {
    assert 0.0 <= Clip(p) <= 1.0;
    hide Edge, Clip, Bin, Scale, Floored;
    EdgeBelow(Clip(p), b, bins);
    EdgeBelow(Clip(p), b + 1, bins);
    UnitTimes(Clip(p), bins as real);
    BinScaled(p, bins);
    FloorBin(Scale(Clip(p), bins as real), bins, b);
  }

  /** The whole part of a number, cut off at the last bin. */
  function Floored(x: real, bins: nat): int {
    if x.Floor < bins - 1 then x.Floor else bins - 1
  }

  lemma BinScaled(p: real, bins: nat)
    requires bins > 0
    ensures Bin(p, bins) == Floored(Scale(Clip(p), bins as real), bins)
  {
    hide Clip;
  }

  lemma FloorBin(x: real, bins: nat, b: nat)
    requires bins > 0 && 0.0 <= x <= bins as real
    ensures Floored(x, bins) == b <==>
            b < bins && b as real <= x && (x < (b + 1) as real || b == bins - 1)
  {
  }

  lemma BinEdges(p: real, bins: nat)
    requires bins > 0 && 0.0 <= p <= 1.0
    ensures Edge(Bin(p, bins), bins) <= p <= Edge(Bin(p, bins) + 1, bins)
  {
    BinExactly(p, bins, Bin(p, bins));
    assert Edge(bins, bins) == 1.0;
  }

  lemma ScaleNext(x: real, n: nat)
    ensures Scale(x, (n + 1) as real) == Scale(x, n as real) + x
    ensures Scale(x, 0.0) == 0.0
  {
  }

  /** Sums over a bin lie between the bounds of what is summed. */
  lemma {:induction false} BinSumBetween(w: Prediction -> real, ps: seq<Prediction>, bins: nat, b: nat, k: nat,
                                         lo: real, hi: real)
    requires bins > 0 && k <= |ps|
    requires forall i :: 0 <= i < k && Bin(ps[i].probability, bins) == b ==> lo <= w(ps[i]) <= hi
    ensures Scale(lo, BinCount(ps, bins, b, k) as real) <= BinSum(w, ps, bins, b, k)
    ensures BinSum(w, ps, bins, b, k) <= Scale(hi, BinCount(ps, bins, b, k) as real)
  {
    if k == 0 {
      ScaleNext(lo, 0);
      ScaleNext(hi, 0);
    } else {
      hide Scale, Bin;
      BinSumBetween(w, ps, bins, b, k - 1, lo, hi);
      ScaleNext(lo, BinCount(ps, bins, b, k - 1));
      ScaleNext(hi, BinCount(ps, bins, b, k - 1));
    }
  }

  /** What a row of the diagram says is possible for its bin. */
  ghost predicate InBin(row: Row) {
    && row.count > 0
    && row.lower <= row.meanConfidence <= row.upper
    && 0.0 <= row.accuracy <= 1.0
  }

  lemma RowInBin(ps: seq<Prediction>, bins: nat, b: nat)
    requires bins > 0 && UnitRange(ps) && b < bins && BinCount(ps, bins, b, |ps|) > 0
    ensures InBin(RowOf(ps, bins, b))
  {
    var n := BinCount(ps, bins, b, |ps|) as real;
    hide Edge, Bin, BinSum, BinCount, Scale;
    forall i | 0 <= i < |ps| && Bin(ps[i].probability, bins) == b
      ensures Edge(b, bins) <= ps[i].probability <= Edge(b + 1, bins)
    {
      BinEdges(ps[i].probability, bins);
    }
    BinSumBetween(Confidence(), ps, bins, b, |ps|, Edge(b, bins), Edge(b + 1, bins));
    BinSumBetween(Outcome(), ps, bins, b, |ps|, 0.0, 1.0);
    ScaleDown(BinSum(Confidence(), ps, bins, b, |ps|), Edge(b, bins), n);
    ScaleDown(BinSum(Confidence(), ps, bins, b, |ps|), Edge(b + 1, bins), n);
    ScaleDown(BinSum(Outcome(), ps, bins, b, |ps|), 0.0, n);
    ScaleDown(BinSum(Outcome(), ps, bins, b, |ps|), 1.0, n);
  }

  lemma EdgesRise(a: nat, b: nat, bins: nat)
    requires bins > 0 && a <= b
    ensures Edge(a, bins) <= Edge(b, bins)
  {
    EdgeBelow(Edge(b, bins), a, bins);
    assert Edge(b, bins) * bins as real == b as real;
  }

  /** Every row's mean confidence lies between its bin's edges, and the rows go up without overlap. */
  lemma {:induction false} RowsInBins(ps: seq<Prediction>, bins: nat, k: nat)
    requires bins > 0 && UnitRange(ps) && k <= bins
    ensures forall i :: 0 <= i < |RowsTo(ps, bins, k)| ==>
              InBin(RowsTo(ps, bins, k)[i]) && RowsTo(ps, bins, k)[i].upper <= Edge(k, bins)
    ensures forall i, j :: 0 <= i < j < |RowsTo(ps, bins, k)| ==>
              RowsTo(ps, bins, k)[i].upper <= RowsTo(ps, bins, k)[j].lower
  {
    if k == 0 {
    } else {
      RowsInBins(ps, bins, k - 1);
      EdgesRise(k - 1, k, bins);
      if BinCount(ps, bins, k - 1, |ps|) > 0 {
        RowInBin(ps, bins, k - 1);
      }
      hide InBin, Edge, BinCount, BinSum;
    }
  }

  // --- bounds ---

  function Gap(): Prediction -> real {
    (p: Prediction) => p.outcome - p.probability
  }

  function AbsGap(): Prediction -> real {
    (p: Prediction) => Abs(p.outcome - p.probability)
  }

  lemma {:induction false} GapSum(ps: seq<Prediction>, bins: nat, b: nat, k: nat)
    requires bins > 0 && k <= |ps|
    ensures BinSum(Gap(), ps, bins, b, k)
            == BinSum(Outcome(), ps, bins, b, k) - BinSum(Confidence(), ps, bins, b, k)
    ensures Abs(BinSum(Gap(), ps, bins, b, k)) <= BinSum(AbsGap(), ps, bins, b, k)
    ensures BinCount(ps, bins, b, k) == 0 ==> BinSum(Gap(), ps, bins, b, k) == 0.0
  {
    if k == 0 {
    } else {
      GapSum(ps, bins, b, k - 1);
    }
  }

  lemma ShareOfGap(count: real, n: real, y: real, p: real)
    requires count > 0.0 && n > 0.0
    ensures count / n * Abs(y / count - p / count) * n == Abs(y - p)
  {
    assert y / count - p / count == (y - p) / count;
    assert count * ((y - p) / count) == y - p;
    var g := (y - p) / count;
    assert count * Abs(g) == Abs(count * g);
    assert count / n * Abs(g) * n == count * Abs(g) by {
      assert count / n * n == count;
      assert count / n * Abs(g) * n == (count / n * n) * Abs(g);
    }
  }

  ghost function Scale(x: real, n: real): real {
    x * n
  }

  lemma ScaleAdd(x: real, y: real, n: real)
    ensures Scale(x + y, n) == Scale(x, n) + Scale(y, n)
  {
  }

  /** A bin's error, scaled by the number of predictions, is its absolute summed gap. */
  lemma BinErrorGap(ps: seq<Prediction>, bins: nat, b: nat)
    requires bins > 0 && ps != []
    ensures Scale(BinError(ps, bins, b), |ps| as real) == Abs(BinSum(Gap(), ps, bins, b, |ps|))
  {
    hide BinSum, BinCount;
    GapSum(ps, bins, b, |ps|);
    var count := BinCount(ps, bins, b, |ps|);
    if count > 0 {
      ShareOfGap(count as real, |ps| as real,
                 BinSum(Outcome(), ps, bins, b, |ps|), BinSum(Confidence(), ps, bins, b, |ps|));
    }
  }

  lemma {:induction false} ErrorBetween(ps: seq<Prediction>, bins: nat, k: nat)
    requires bins > 0 && ps != []
    ensures Abs(AcrossBins(Gap(), ps, bins, k, |ps|)) <= Scale(ErrorTo(ps, bins, k), |ps| as real)
    ensures Scale(ErrorTo(ps, bins, k), |ps| as real) <= AcrossBins(AbsGap(), ps, bins, k, |ps|)
  {
    if k == 0 {
      assert Scale(0.0, |ps| as real) == 0.0;
    } else {
      hide Scale, BinError, BinSum, Gap, AbsGap;
      ErrorBetween(ps, bins, k - 1);
      BinErrorGap(ps, bins, k - 1);
      GapSum(ps, bins, k - 1, |ps|);
      ScaleAdd(ErrorTo(ps, bins, k - 1), BinError(ps, bins, k - 1), |ps| as real);
    }
  }

  lemma {:induction false} GapParts(ps: seq<Prediction>, k: nat)
    requires k <= |ps|
    ensures Sum(Gap(), ps, k) == Sum(Outcome(), ps, k) - Sum(Confidence(), ps, k)
    ensures UnitRange(ps) ==> Sum(AbsGap(), ps, k) <= k as real
  {
    if k == 0 {
    } else {
      GapParts(ps, k - 1);
    }
  }

  lemma ScaleDown(x: real, y: real, n: real)
    requires n > 0.0
    ensures x <= Scale(y, n) ==> x / n <= y
    ensures Scale(y, n) <= x ==> y <= x / n
  {
    assert x == x / n * n;
  }

  ghost predicate UnitRange(ps: seq<Prediction>) {
    forall i :: 0 <= i < |ps| ==> 0.0 <= ps[i].probability <= 1.0 && 0.0 <= ps[i].outcome <= 1.0
  }

  /** The calibration error lies between the gap of the overall means and the mean absolute gap,
      and is at most one for probabilities and labels between 0 and 1. */
  lemma ErrorBounds(ps: seq<Prediction>, bins: nat)
    requires bins > 0 && ps != []
    ensures Abs(Sum(Outcome(), ps, |ps|) - Sum(Confidence(), ps, |ps|)) / |ps| as real <= ErrorTo(ps, bins, bins)
    ensures ErrorTo(ps, bins, bins) <= Sum(AbsGap(), ps, |ps|) / |ps| as real
    ensures UnitRange(ps) ==> Sum(AbsGap(), ps, |ps|) / |ps| as real <= 1.0
  {
    var n := |ps| as real;
    assert Scale(1.0, n) == n;
    hide *;
    ErrorBetween(ps, bins, bins);
    BinsPartition(Gap(), ps, bins, |ps|);
    BinsPartition(AbsGap(), ps, bins, |ps|);
    GapParts(ps, |ps|);
    ScaleDown(Abs(Sum(Gap(), ps, |ps|)), ErrorTo(ps, bins, bins), n);
    ScaleDown(Sum(AbsGap(), ps, |ps|), ErrorTo(ps, bins, bins), n);
    ScaleDown(Sum(AbsGap(), ps, |ps|), 1.0, n);
  }

  ghost predicate Balanced(ps: seq<Prediction>, bins: nat, b: nat)
    requires bins > 0
  {
    BinSum(Outcome(), ps, bins, b, |ps|) == BinSum(Confidence(), ps, bins, b, |ps|)
  }

  lemma BinErrorZero(ps: seq<Prediction>, bins: nat, b: nat)
    requires bins > 0 && ps != []
    ensures BinError(ps, bins, b) >= 0.0
    ensures BinError(ps, bins, b) == 0.0 <==> Balanced(ps, bins, b)
  {
    hide BinSum, BinError, Gap;
    BinErrorGap(ps, bins, b);
    GapSum(ps, bins, b, |ps|);
  }

  /** The error vanishes exactly when in every bin the outcomes and the probabilities sum alike. */
  lemma {:induction false} PerfectlyCalibrated(ps: seq<Prediction>, bins: nat, k: nat)
    requires bins > 0 && ps != []
    ensures ErrorTo(ps, bins, k) >= 0.0
    ensures ErrorTo(ps, bins, k) == 0.0 <==> forall b: nat :: b < k ==> Balanced(ps, bins, b)
  {
    if k == 0 {
    } else {
      hide BinError, Balanced;
      PerfectlyCalibrated(ps, bins, k - 1);
      BinErrorZero(ps, bins, k - 1);
    }
  }

  // --- the sums on the caller's lists ---

  ghost function ListSum(xs: seq<real>): real {
    if xs == [] then 0.0 else ListSum(xs[..|xs| - 1]) + xs[|xs| - 1]
  }

  ghost function GapList(probabilities: seq<real>, labels: seq<real>): seq<real>
    requires |probabilities| == |labels|
  {
    seq(|labels|, k requires 0 <= k < |labels| =>
      if labels[k] < probabilities[k] then probabilities[k] - labels[k] else labels[k] - probabilities[k])
  }

  lemma {:induction false} SumsOfLists(probabilities: seq<real>, labels: seq<real>, k: nat)
    requires k <= |probabilities| == |labels|
    ensures var ps := Predictions(probabilities, labels);
            && Sum(Outcome(), ps, k) == ListSum(labels[..k]) && Sum(Confidence(), ps, k) == ListSum(probabilities[..k])
            && Sum(AbsGap(), ps, k) == ListSum(GapList(probabilities, labels)[..k])
  {
    if k == 0 {
    } else {
      SumsOfLists(probabilities, labels, k - 1);
      SumTo(labels, k);
      SumTo(probabilities, k);
      SumTo(GapList(probabilities, labels), k);
    }
  }

  lemma SumTo(xs: seq<real>, k: nat)
    requires 0 < k <= |xs|
    ensures ListSum(xs[..k]) == ListSum(xs[..k - 1]) + xs[k - 1]
  {
    assert xs[..k][..k - 1] == xs[..k - 1];
  }

  /** The error on the caller's lists: at least the gap between the mean label and the mean probability, at most the
      mean gap. */
  lemma ErrorOfLists(probabilities: seq<real>, labels: seq<real>, bins: nat)
    requires |probabilities| == |labels| > 0 && bins > 0
    ensures var e, n := ErrorTo(Predictions(probabilities, labels), bins, bins), |labels| as real;
            && ListSum(labels) / n - ListSum(probabilities) / n <= e
            && ListSum(probabilities) / n - ListSum(labels) / n <= e
            && e <= ListSum(GapList(probabilities, labels)) / n
  {
    var ps, n := Predictions(probabilities, labels), |labels| as real;
    SumsOfLists(probabilities, labels, |labels|);
    assert labels[..|labels|] == labels && probabilities[..|labels|] == probabilities;
    assert GapList(probabilities, labels)[..|labels|] == GapList(probabilities, labels);
    ErrorBounds(ps, bins);
    hide ErrorTo, ListSum, Predictions, Sum;
    GapOfMeans(ListSum(labels), ListSum(probabilities), n);
  }

  lemma GapOfMeans(y: real, p: real, n: real)
    requires n > 0.0
    ensures Abs(y - p) / n >= y / n - p / n && Abs(y - p) / n >= p / n - y / n
  {
    assert y / n - p / n == (y - p) / n;
    assert (y - p) / n <= Abs(y - p) / n by { Quotients(y - p, Abs(y - p), n); }
    assert (p - y) / n <= Abs(y - p) / n by { Quotients(p - y, Abs(y - p), n); }
  }

  lemma Quotients(x: real, y: real, n: real)
    requires x <= y && n > 0.0
    ensures x / n <= y / n
  {
    assert (y - x) / n >= 0.0;
  }
}
