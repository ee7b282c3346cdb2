/** Precision, recall and F1 from confusion counts (packages/evaluation/metrics.py). */
module Metrics {
  import opened Options
  import opened GreedyPairs
  import opened Sorting
  import opened EvaluationMatching

  datatype Scored = Scored(precision: real, recall: real, f1: real)

  /** Empty against empty is perfect; negative counts are an error. */
  function MetricsFromConfusion(tp: int, fp: int, fn: int): Option<Scored> {
    if tp < 0 || fp < 0 || fn < 0 then None
    else
      var predicted, actual := tp + fp, tp + fn;
      var precision := if predicted != 0 then tp as real / predicted as real else if actual == 0 then 1.0 else 0.0;
      var recall := if actual != 0 then tp as real / actual as real else if predicted == 0 then 1.0 else 0.0;
      Some(Scored(precision, recall,
                  if precision + recall != 0.0 then 2.0 * precision * recall / (precision + recall) else 0.0))
  }

  function F1(tp: nat, fp: nat, fn: nat): real {
    MetricsFromConfusion(tp, fp, fn).value.f1
  }

  /** Precision and recall are the shares of the true positives among all predicted and all actual ones; of none they
      are 1 when there is none on either side and else 0. */
  lemma SharesExactly(tp: int, fp: int, fn: int)
    ensures MetricsFromConfusion(tp, fp, fn).None? <==> tp < 0 || fp < 0 || fn < 0
    ensures tp >= 0 && fp >= 0 && fn >= 0 ==>
              var m := MetricsFromConfusion(tp, fp, fn).value;
              && (if tp + fp > 0 then m.precision * (tp + fp) as real == tp as real
                  else m.precision == if fn == 0 then 1.0 else 0.0)
              && (if tp + fn > 0 then m.recall * (tp + fn) as real == tp as real
                  else m.recall == if fp == 0 then 1.0 else 0.0)
  {
  }

  lemma HarmonicMean(t: real, a: real, b: real)
    requires t > 0.0 && a > 0.0 && b > 0.0
    ensures t / a + t / b != 0.0
    ensures 2.0 * (t / a) * (t / b) / (t / a + t / b) == 2.0 * t / (a + b)
  {
    var p, r := t / a, t / b;
    assert p * a == t && r * b == t;
    assert p > 0.0 && r > 0.0;
    var h := 2.0 * t / (a + b);
    assert h * (a + b) == 2.0 * t;
    // p * r * (a + b) == t * (p + r)
    assert p * r * a == t * r && p * r * b == t * p;
    assert p * r * (a + b) == t * (p + r);
    Divide(2.0 * p * r, p + r, h, a + b, t);
  }

  lemma Divide(x: real, y: real, h: real, z: real, t: real)
    requires y > 0.0 && z > 0.0 && h * z == 2.0 * t && x * z == 2.0 * (t * y)
    ensures x / y == h
  {
    assert (h * y) * z == 2.0 * (t * y) by {
      assert (h * y) * z == (h * z) * y;
    }
    assert x * z == (h * y) * z;
    assert x == h * y;
  }

  /** The part `t` is of `t` and `e` together. */
  ghost function Share(t: real, e: real): real
    requires t + e > 0.0
  {
    t / (t + e)
  }

  /** F1 in closed form, the zero denominators included. */
  lemma F1Closed(tp: nat, fp: nat, fn: nat)
    ensures F1(tp, fp, fn) == if tp + fp + fn == 0 then 1.0 else Share((2 * tp) as real, (fp + fn) as real)
  {
    if tp > 0 {
      HarmonicMean(tp as real, (tp + fp) as real, (tp + fn) as real);
      assert (tp + fp) as real + (tp + fn) as real == (2 * tp) as real + (fp + fn) as real;
      assert 2.0 * tp as real == (2 * tp) as real;
    }
  }

  lemma ShareMonotone(t: real, e: real, t': real, e': real)
    requires 0.0 <= t <= t' && 0.0 <= e' <= e && t' + e' > 0.0 && t + e > 0.0
    ensures Share(t, e) <= Share(t', e')
  {
    CrossTerms(t, e, t', e');
    hide Times;
    QuotientOrder(t, t + e, t', t' + e');
  }

  ghost function Times(x: real, y: real): real {
    x * y
  }

  lemma TimesOrder(x: real, y: real, z: real)
    requires z >= 0.0 && x <= y
    ensures Times(x, z) <= Times(y, z) && Times(z, x) <= Times(z, y)
  {
    assert (y - x) * z >= 0.0;
  }

  lemma TimesSplit(x: real, y: real, z: real)
    ensures Times(x, y + z) == Times(x, y) + Times(x, z)
    ensures Times(x, y) == Times(y, x)
  {
  }

  lemma CrossTerms(t: real, e: real, t': real, e': real)
    requires 0.0 <= t <= t' && 0.0 <= e' <= e
    ensures Times(t, t' + e') <= Times(t', t + e)
  {
    hide Times;
    TimesSplit(t, t', e');
    TimesSplit(t', t, e);
    TimesOrder(e', e, t);
    TimesOrder(t, t', e);
  }

  lemma QuotientTimes(x: real, y: real)
    requires y != 0.0
    ensures Times(x / y, y) == x
  {
  }

  lemma TimesSwap(x: real, y: real, z: real)
    ensures Times(Times(x, y), z) == Times(x, Times(y, z))
  {
    assert x * y * z == x * (y * z);
  }

  /** Quotients compare as their cross products do. */
  lemma QuotientOrder(a: real, b: real, c: real, d: real)
    requires b > 0.0 && d > 0.0 && Times(a, d) <= Times(c, b)
    ensures a / b <= c / d
  {
    QuotientTimes(a, b);
    QuotientTimes(c, d);
    hide Times;
    TimesSwap(a / b, b, d);
    TimesSwap(c / d, d, b);
    TimesSplit(d, b, 0.0);
    PositiveTimes(b, d);
    Cancel(a / b, c / d, Times(b, d));
  }

  lemma PositiveTimes(x: real, y: real)
    requires x > 0.0 && y > 0.0
    ensures Times(x, y) > 0.0
  {
  }

  lemma Cancel(x: real, y: real, z: real)
    requires z > 0.0 && Times(x, z) <= Times(y, z)
    ensures x <= y
  {
    assert x > y ==> (x - y) * z > 0.0;
    assert (x - y) * z == x * z - y * z;
  }

  lemma ShareBelowOne(t: real, e: real)
    requires 0.0 <= t && 0.0 <= e && t + e > 0.0
    ensures Share(t, e) <= 1.0
  {
    ShareMonotone(t, e, t + 1.0, 0.0);
    NoErrors(t + 1.0);
  }

  lemma NoErrors(t: real)
    requires t > 0.0
    ensures Share(t, 0.0) == 1.0
  {
  }

  /** More true positives and fewer errors never lower F1. */
  lemma F1Monotone(tp: nat, fp: nat, fn: nat, tp': nat, fp': nat, fn': nat)
    requires tp <= tp' && fp' <= fp && fn' <= fn
    ensures F1(tp, fp, fn) <= F1(tp', fp', fn')
  {
    hide F1, Share;
    F1Closed(tp, fp, fn);
    F1Closed(tp', fp', fn');
    if tp + fp + fn > 0 {
      ShareBelowOne((2 * tp) as real, (fp + fn) as real);
      if tp' + fp' + fn' > 0 {
        ShareMonotone((2 * tp) as real, (fp + fn) as real, (2 * tp') as real, (fp' + fn') as real);
      }
    } else if tp' > 0 {
      NoErrors((2 * tp') as real);
    }
  }

  /** On the same inputs coverage matching never scores a lower F1 than one-to-one matching. */
  lemma CoverageF1<P, G>(predictions: seq<P>, gold: seq<G>, gate: Gate<P, G>, r: CoverageOutcome)
    requires Covers(predictions, gold, gate, r)
    ensures var pairs := Matched(predictions, gold, gate);
            F1(|pairs|, |Others(|predictions|, Lefts(pairs))|, |Others(|gold|, Rights(pairs))|)
            <= F1(|r.covered|, |r.unmatchedPredictions|, |r.uncovered|)
  {
    hide F1, Matched, Others, Covers;
    CoverageDominates(predictions, gold, gate, r);
    var pairs := Matched(predictions, gold, gate);
    F1Monotone(|pairs|, |Others(|predictions|, Lefts(pairs))|, |Others(|gold|, Rights(pairs))|,
               |r.covered|, |r.unmatchedPredictions|, |r.uncovered|);
  }
}
