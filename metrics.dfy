/**
 * `compute_metrics`: accuracy, precision, recall and F1 of predicted binary
 * labels against true ones, from the counts of the confusion matrix, with
 * `real` as exact rationals.
 */
module Metrics {
  import opened Wrappers
  import opened Ratio

  datatype Metrics = Metrics(accuracy: real, precision: real, recall: real, f1: real)

  /** The number of pairs `zip(yTrue, yPred)` yields (it stops at the shorter
      list) whose true label is `t` and whose predicted label is `p`. */
  function Count(yTrue: seq<int>, yPred: seq<int>, t: int, p: int): (n: nat)
    ensures n <= |yTrue| && n <= |yPred|
    decreases |yTrue|
  {
    if yTrue == [] || yPred == [] then 0
    else (if yTrue[0] == t && yPred[0] == p then 1 else 0) + Count(yTrue[1..], yPred[1..], t, p)
  }

  /** The number of entries of `ys` equal to `v`. */
  function Occurrences(ys: seq<int>, v: int): (n: nat)
    ensures n <= |ys|
  {
    if ys == [] then 0 else (if ys[0] == v then 1 else 0) + Occurrences(ys[1..], v)
  }

  predicate IsBinary(l: int) {
    l == 0 || l == 1
  }

  /** Some zipped pair has both labels in {0, 1}, so the confusion matrix is not empty. */
  predicate HasLabelledPair(yTrue: seq<int>, yPred: seq<int>) {
    exists i :: 0 <= i < |yTrue| && i < |yPred| && IsBinary(yTrue[i]) && IsBinary(yPred[i])
  }

  /** `compute_metrics(y_true, y_pred)`: the accuracy's division is not
      guarded and raises when no pair is counted; the other three are. */
  function ComputeMetrics(yTrue: seq<int>, yPred: seq<int>): (r: Result<Metrics>)
    ensures r.Err? <==> !HasLabelledPair(yTrue, yPred)
    ensures r.Err? ==> r.error == ZeroDivisionError
    ensures r.Ok? ==> && 0.0 <= r.value.accuracy <= 1.0
                      && 0.0 <= r.value.precision <= 1.0
                      && 0.0 <= r.value.recall <= 1.0
                      && 0.0 <= r.value.f1 <= 1.0
    ensures r.Ok? && Count(yTrue, yPred, 1, 1) + Count(yTrue, yPred, 0, 1) == 0 ==> r.value.precision == 0.0
    ensures r.Ok? && Count(yTrue, yPred, 1, 1) + Count(yTrue, yPred, 1, 0) == 0 ==> r.value.recall == 0.0
    ensures r.Ok? && r.value.precision + r.value.recall == 0.0 ==> r.value.f1 == 0.0
    ensures r.Ok? && r.value.precision + r.value.recall != 0.0 ==>
              Min(r.value.precision, r.value.recall) <= r.value.f1 <= Max(r.value.precision, r.value.recall)
    ensures var tp, fp, fn, tn := Count(yTrue, yPred, 1, 1), Count(yTrue, yPred, 0, 1),
                                  Count(yTrue, yPred, 1, 0), Count(yTrue, yPred, 0, 0);
            r.Ok? ==> && (r.value.accuracy == 1.0 <==> fp + fn == 0)
                      && (r.value.accuracy == 0.0 <==> tp + tn == 0)
                      && (r.value.precision == 1.0 <==> tp > 0 && fp == 0)
                      && (r.value.precision == 0.0 <==> tp == 0)
                      && (r.value.recall == 1.0 <==> tp > 0 && fn == 0)
                      && (r.value.recall == 0.0 <==> tp == 0)
  {
    CountedPairs(yTrue, yPred);
    FromCounts(Count(yTrue, yPred, 1, 1), Count(yTrue, yPred, 0, 1),
               Count(yTrue, yPred, 1, 0), Count(yTrue, yPred, 0, 0))
  }

  /** The four metrics from the four cells of the confusion matrix. */
  function FromCounts(tp: nat, fp: nat, fn: nat, tn: nat): (r: Result<Metrics>)
    ensures r.Err? <==> tp + fp + fn + tn == 0
    ensures r.Err? ==> r.error == ZeroDivisionError
    ensures r.Ok? ==> && 0.0 <= r.value.accuracy <= 1.0
                      && 0.0 <= r.value.precision <= 1.0
                      && 0.0 <= r.value.recall <= 1.0
                      && 0.0 <= r.value.f1 <= 1.0
    ensures r.Ok? && tp + fp == 0 ==> r.value.precision == 0.0
    ensures r.Ok? && tp + fn == 0 ==> r.value.recall == 0.0
    ensures r.Ok? && r.value.precision + r.value.recall == 0.0 ==> r.value.f1 == 0.0
    ensures r.Ok? && r.value.precision + r.value.recall != 0.0 ==>
              Min(r.value.precision, r.value.recall) <= r.value.f1 <= Max(r.value.precision, r.value.recall)
    ensures r.Ok? ==> && (r.value.accuracy == 1.0 <==> fp + fn == 0)
                      && (r.value.accuracy == 0.0 <==> tp + tn == 0)
                      && (r.value.precision == 1.0 <==> tp > 0 && fp == 0)
                      && (r.value.precision == 0.0 <==> tp == 0)
                      && (r.value.recall == 1.0 <==> tp > 0 && fn == 0)
                      && (r.value.recall == 0.0 <==> tp == 0)
  {
    if tp + fp + fn + tn == 0 then
      Err(ZeroDivisionError)
    else
      RatioBounds(tp + tn, tp + fp + fn + tn);
      var accuracy := (tp + tn) as real / (tp + fp + fn + tn) as real;
      var precision := if tp + fp != 0 then RatioBounds(tp, tp + fp); tp as real / (tp + fp) as real else 0.0;
      var recall := if tp + fn != 0 then RatioBounds(tp, tp + fn); tp as real / (tp + fn) as real else 0.0;
      var f1 := if precision + recall != 0.0 then
                  HarmonicMeanBounds(precision, recall);
                  2.0 * precision * recall / (precision + recall)
                else 0.0;
      Ok(Metrics(accuracy, precision, recall, f1))
  }

  function Min(x: real, y: real): real { if x <= y then x else y }

  function Max(x: real, y: real): real { if x <= y then y else x }

  /** The harmonic mean of two rates in [0, 1] lies between them. */
  lemma HarmonicMeanBounds(p: real, q: real)
    requires 0.0 <= p <= 1.0 && 0.0 <= q <= 1.0 && p + q != 0.0
    ensures Min(p, q) <= 2.0 * p * q / (p + q) <= Max(p, q)
  {
    var lo, hi := Min(p, q), Max(p, q);
    ProductOrder(lo, hi);
    assert lo * (p + q) <= 2.0 * p * q <= hi * (p + q);
    QuotientBetween(2.0 * p * q, p + q, lo, hi);
  }

  /** lo (lo + hi) <= 2 lo hi <= hi (lo + hi) for 0 <= lo <= hi. */
  lemma ProductOrder(lo: real, hi: real)
    requires 0.0 <= lo <= hi
    ensures lo * (lo + hi) <= 2.0 * lo * hi <= hi * (lo + hi)
  {
    assert lo * (hi - lo) >= 0.0;
    assert hi * (hi - lo) >= 0.0;
  }

  /** A quotient lies between two bounds whose products with the divisor bound its dividend. */
  lemma QuotientBetween(num: real, d: real, lo: real, hi: real)
    requires d > 0.0 && lo * d <= num <= hi * d
    ensures lo <= num / d <= hi
  {
    var h := num / d;
    assert h * d == num;
    assert (h - lo) * d >= 0.0;
    assert (hi - h) * d >= 0.0;
  }

  /** The four counts are zero together exactly when no pair has both labels binary. */
  lemma {:induction false} CountedPairs(yTrue: seq<int>, yPred: seq<int>)
    ensures (Count(yTrue, yPred, 1, 1) + Count(yTrue, yPred, 0, 1) + Count(yTrue, yPred, 1, 0)
               + Count(yTrue, yPred, 0, 0) == 0) <==> !HasLabelledPair(yTrue, yPred)
    decreases |yTrue|
  {
    if yTrue != [] && yPred != [] {
      CountedPairs(yTrue[1..], yPred[1..]);
      if HasLabelledPair(yTrue[1..], yPred[1..]) {
        var i :| 0 <= i < |yTrue[1..]| && i < |yPred[1..]| && IsBinary(yTrue[1..][i]) && IsBinary(yPred[1..][i]);
        assert IsBinary(yTrue[i + 1]) && IsBinary(yPred[i + 1]);
      }
      if HasLabelledPair(yTrue, yPred) && !(IsBinary(yTrue[0]) && IsBinary(yPred[0])) {
        var i :| 0 <= i < |yTrue| && i < |yPred| && IsBinary(yTrue[i]) && IsBinary(yPred[i]);
        assert i > 0;
        assert IsBinary(yTrue[1..][i - 1]) && IsBinary(yPred[1..][i - 1]);
      }
    }
  }

  /** With every true label 1 there is no false positive and no true negative;
      true positives are the predicted 1s and false negatives the predicted 0s. */
  lemma {:induction false} AllTrueCounts(yTrue: seq<int>, yPred: seq<int>)
    requires |yTrue| == |yPred|
    requires forall i :: 0 <= i < |yTrue| ==> yTrue[i] == 1
    ensures Count(yTrue, yPred, 0, 1) == 0 && Count(yTrue, yPred, 0, 0) == 0
    ensures Count(yTrue, yPred, 1, 1) == Occurrences(yPred, 1)
    ensures Count(yTrue, yPred, 1, 0) == Occurrences(yPred, 0)
    decreases |yTrue|
  {
    if yTrue != [] {
      AllTrueCounts(yTrue[1..], yPred[1..]);
    }
  }

  /** Binary labels are all either 0 or 1. */
  lemma {:induction false} BinaryOccurrences(ys: seq<int>)
    requires forall i :: 0 <= i < |ys| ==> IsBinary(ys[i])
    ensures Occurrences(ys, 0) + Occurrences(ys, 1) == |ys|
  {
    if ys != [] {
      BinaryOccurrences(ys[1..]);
    }
  }

  /** The degenerate metrics of the evaluation table, whose true labels are
      all 1: accuracy and recall are both the rate of predicted 1s, precision
      is 1 as soon as one 1 is predicted (and 0 otherwise), and F1 is
      2·recall / (1 + recall). */
  lemma AllTrueMetrics(yTrue: seq<int>, yPred: seq<int>)
    requires |yTrue| == |yPred| > 0
    requires forall i :: 0 <= i < |yTrue| ==> yTrue[i] == 1
    requires forall i :: 0 <= i < |yPred| ==> IsBinary(yPred[i])
    ensures ComputeMetrics(yTrue, yPred) == DegenerateMetrics(Occurrences(yPred, 1), |yPred|)
  {
    AllTrueCounts(yTrue, yPred);
    BinaryOccurrences(yPred);
    var pos := Occurrences(yPred, 1);
    OnlyTruePositives(pos, |yPred| - pos);
  }

  /** The metrics when `pos` of `n` predictions are 1 and every true label is 1. */
  function DegenerateMetrics(pos: nat, n: nat): Result<Metrics>
    requires 0 < n
  {
    var rate := pos as real / n as real;
    Ok(Metrics(rate, if pos > 0 then 1.0 else 0.0, rate,
               if pos > 0 then 2.0 * rate / (1.0 + rate) else 0.0))
  }

  /** A confusion matrix with no negative true label. */
  lemma OnlyTruePositives(tp: nat, fn: nat)
    requires tp + fn > 0
    ensures FromCounts(tp, 0, fn, 0) == DegenerateMetrics(tp, tp + fn)
  {
    var rate := tp as real / (tp + fn) as real;
    RatioBounds(tp, tp + fn);
    if tp > 0 {
      RatioBounds(tp, tp);
      assert tp as real / (tp + 0) as real == 1.0;
      assert 2.0 * 1.0 * rate / (1.0 + rate) == 2.0 * rate / (1.0 + rate);
    }
  }
}
