/** The isotonic calibrator on the two lists it is fitted to (packages/evaluation/calibration.py): sorting keeps
    the pairs, and least squares is said of the lists themselves. */
module IsotonicInputs {
  import opened Isotonic
  import opened IsotonicTies
  import opened Sorting

  /** At how many of the first `k` places `p` and `y` stand together. */
  ghost function Together(probabilities: seq<real>, labels: seq<real>, p: real, y: real, k: nat): nat
    requires k <= |probabilities| == |labels|
  {
    if k == 0 then 0
    else Together(probabilities, labels, p, y, k - 1)
         + if probabilities[k - 1] == p && labels[k - 1] == y then 1 else 0
  }

  lemma {:induction false} ZipCounts(probabilities: seq<real>, labels: seq<real>, p: real, y: real, k: nat)
    requires k <= |probabilities| == |labels|
    ensures multiset(Zip(probabilities, labels)[..k])[Point(p, y)] == Together(probabilities, labels, p, y, k)
  {
    if k == 0 {
    } else {
      ZipCounts(probabilities, labels, p, y, k - 1);
      var points := Zip(probabilities, labels);
      assert points[..k] == points[..k - 1] + [points[k - 1]];
    }
  }

  /** The points fitted are the caller's pairs, each as often as it is given, by rising probability. */
  lemma PairsKept(probabilities: seq<real>, labels: seq<real>, p: real, y: real)
    requires |probabilities| == |labels|
    ensures multiset(Ordered(probabilities, labels))[Point(p, y)]
            == Together(probabilities, labels, p, y, |probabilities|)
    ensures forall i, j :: 0 <= i < j < |Ordered(probabilities, labels)| ==>
              Ordered(probabilities, labels)[i].probability <= Ordered(probabilities, labels)[j].probability
  {
    var points := Zip(probabilities, labels);
    ZipCounts(probabilities, labels, p, y, |probabilities|);
    assert points[..|probabilities|] == points;
    SortBySorted(NoGreater, points);
    var ordered := Ordered(probabilities, labels);
    forall i, j | 0 <= i < j < |ordered| ensures ordered[i].probability <= ordered[j].probability {
      assert NoGreater(ordered[i], ordered[j]);
    }
  }

  // --- sums do not depend on the order ---

  ghost function SumBy(w: Point -> real, s: seq<Point>): real {
    if s == [] then 0.0 else SumBy(w, s[..|s| - 1]) + w(s[|s| - 1])
  }

  lemma SumSnoc(w: Point -> real, s: seq<Point>, x: Point)
    ensures SumBy(w, s + [x]) == SumBy(w, s) + w(x)
  {
    assert (s + [x])[..|s|] == s;
  }

  lemma {:induction false} InsertSum(w: Point -> real, leq: (Point, Point) -> bool, s: seq<Point>, x: Point)
    ensures SumBy(w, Insert(leq, s, x)) == SumBy(w, s) + w(x)
  {
    if s == [] || leq(s[|s| - 1], x) {
      SumSnoc(w, s, x);
    } else {
      var t := s[..|s| - 1];
      InsertSum(w, leq, t, x);
      SumSnoc(w, Insert(leq, t, x), s[|s| - 1]);
    }
  }

  lemma {:induction false} SortSum(w: Point -> real, leq: (Point, Point) -> bool, s: seq<Point>)
    ensures SumBy(w, SortBy(leq, s)) == SumBy(w, s)
  {
    if s == [] {
    } else {
      SortSum(w, leq, s[..|s| - 1]);
      InsertSum(w, leq, SortBy(leq, s[..|s| - 1]), s[|s| - 1]);
    }
  }

  ghost function Miss(h: real -> real): Point -> real {
    (p: Point) => (p.outcome - h(p.probability)) * (p.outcome - h(p.probability))
  }

  lemma {:induction false} LossIsSum(points: seq<Point>, h: real -> real, k: nat)
    requires k <= |points|
    ensures Loss(points, At(points, h), k) == SumBy(Miss(h), points[..k])
  {
    if k == 0 {
    } else {
      MissIsSquare(h, points[k - 1]);
      hide Miss, Square, SumBy;
      LossIsSum(points, h, k - 1);
      assert points[..k] == points[..k - 1] + [points[k - 1]];
      SumSnoc(Miss(h), points[..k - 1], points[k - 1]);
      assert At(points, h)[k - 1] == h(points[k - 1].probability);
    }
  }

  lemma MissIsSquare(h: real -> real, p: Point)
    ensures Miss(h)(p) == Square(p.outcome - h(p.probability))
  {
  }

  /** The squared error of a function of the probability over the first `k` pairs of the lists. */
  ghost function ErrorOn(probabilities: seq<real>, labels: seq<real>, h: real -> real, k: nat): real
    requires k <= |probabilities| == |labels|
  {
    if k == 0 then 0.0
    else ErrorOn(probabilities, labels, h, k - 1)
         + (labels[k - 1] - h(probabilities[k - 1])) * (labels[k - 1] - h(probabilities[k - 1]))
  }

  lemma {:induction false} ZipSum(probabilities: seq<real>, labels: seq<real>, h: real -> real, k: nat)
    requires k <= |probabilities| == |labels|
    ensures SumBy(Miss(h), Zip(probabilities, labels)[..k]) == ErrorOn(probabilities, labels, h, k)
  {
    if k == 0 {
    } else {
      ZipSum(probabilities, labels, h, k - 1);
      var points := Zip(probabilities, labels);
      assert points[..k] == points[..k - 1] + [points[k - 1]];
      SumSnoc(Miss(h), points[..k - 1], points[k - 1]);
    }
  }

  lemma LossOnInputs(probabilities: seq<real>, labels: seq<real>, h: real -> real)
    requires |probabilities| == |labels|
    ensures var points := Ordered(probabilities, labels);
            Loss(points, At(points, h), |points|) == ErrorOn(probabilities, labels, h, |labels|)
  {
    var points, pairs := Ordered(probabilities, labels), Zip(probabilities, labels);
    LossIsSum(points, h, |points|);
    assert points[..|points|] == points;
    SortSum(Miss(h), NoGreater, pairs);
    ZipSum(probabilities, labels, h, |labels|);
    assert pairs[..|labels|] == pairs;
  }

  /** What looking up gives is the least-squares non-decreasing function of the probability on the caller's lists,
      exactly when no tied neighbours can be told apart by averages of the labels around them. */
  lemma CalibratorOptimal(probabilities: seq<real>, labels: seq<real>)
    requires |probabilities| == |labels| > 0
    ensures var points := Ordered(probabilities, labels);
            var n := |labels|;
            points != [] && (TiesInseparable(points) <==>
              forall h :: RisingFunction(h) ==>
                ErrorOn(probabilities, labels, Applied(points), n) <= ErrorOn(probabilities, labels, h, n))
  {
    var points := Ordered(probabilities, labels);
    SortBySorted(NoGreater, Zip(probabilities, labels));
    AppliedOptimal(points);
    hide Applied, TiesInseparable, RisingFunction, Loss, At, ErrorOn, Ordered, Sorted;
    LossOnInputs(probabilities, labels, Applied(points));
    forall h ensures Loss(points, At(points, h), |points|) == ErrorOn(probabilities, labels, h, |labels|) {
      LossOnInputs(probabilities, labels, h);
    }
  }
}
