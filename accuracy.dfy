/**
 * The label-accuracy and combination step of analyse_model_4d: the share
 * of the vote weight that falls on correctly predicted catalogue points,
 * and the mean of that accuracy with one minus the geometric score.
 */
module Accuracy {
  import opened Frames
  import opened DistanceStage

  /** predicted_nf == actual_nf, element by element. */
  function Hits(predicted: seq<Label>, actual: seq<Label>): (h: seq<bool>)
    requires |predicted| == |actual|
    ensures |h| == |predicted| && forall j :: 0 <= j < |h| ==> (h[j] <==> predicted[j] == actual[j])
  {
    seq(|predicted|, j requires 0 <= j < |predicted| => predicted[j] == actual[j])
  }

  /** The hits as 0/1 values. */
  function Matches(h: seq<bool>): (r: seq<real>)
    ensures |r| == |h|
    ensures forall j :: 0 <= j < |h| ==> r[j] == (if h[j] then 1.0 else 0.0)
  {
    seq(|h|, j requires 0 <= j < |h| => if h[j] then 1.0 else 0.0)
  }

  /** matches * weights: each weight where the prediction is right, 0 elsewhere. */
  function CorrectWeights(h: seq<bool>, weights: seq<real>): (r: seq<real>)
    requires |h| == |weights|
    ensures |r| == |weights|
    ensures forall j :: 0 <= j < |r| ==> r[j] == (if h[j] then weights[j] else 0.0)
  {
    seq(|weights|, j requires 0 <= j < |weights| => if h[j] then weights[j] else 0.0)
  }

  /** nf_accuracy = sum(matches * weights) / sum(weights). */
  function WeightedAccuracy(predicted: seq<Label>, actual: seq<Label>, weights: seq<real>): real
    requires |predicted| == |actual| == |weights| && Sum(weights) != 0.0
  {
    Sum(CorrectWeights(Hits(predicted, actual), weights)) / Sum(weights)
  }

  /** The plain fraction of correct predictions, np.mean(predicted_nf == actual_nf). */
  function PlainAccuracy(predicted: seq<Label>, actual: seq<Label>): real
    requires |predicted| == |actual| > 0
  {
    Mean(Matches(Hits(predicted, actual)))
  }

  lemma {:induction false} SumMonotone(a: seq<real>, b: seq<real>)
    requires |a| == |b| && forall j :: 0 <= j < |a| ==> a[j] <= b[j]
    ensures Sum(a) <= Sum(b)
  {
    if a != [] {
      SumMonotone(a[1..], b[1..]);
    }
  }

  lemma {:induction false} SumPositive(a: seq<real>)
    requires |a| > 0 && forall j :: 0 <= j < |a| ==> a[j] > 0.0
    ensures Sum(a) > 0.0
  {
    if |a| > 1 {
      SumPositive(a[1..]);
    }
  }

  lemma {:induction false} SumNonNegative(a: seq<real>)
    requires forall j :: 0 <= j < |a| ==> a[j] >= 0.0
    ensures Sum(a) >= 0.0
  {
    if a != [] {
      SumNonNegative(a[1..]);
    }
  }

  /** With positive weights the weighted accuracy lies in [0,1]. */
  lemma AccuracyInUnitInterval(predicted: seq<Label>, actual: seq<Label>, weights: seq<real>)
    requires |predicted| == |actual| == |weights| > 0
    requires forall j :: 0 <= j < |weights| ==> weights[j] > 0.0
    ensures Sum(weights) > 0.0
    ensures 0.0 <= WeightedAccuracy(predicted, actual, weights) <= 1.0
  {
    SumPositive(weights);
    var correct := CorrectWeights(Hits(predicted, actual), weights);
    SumMonotone(correct, weights);
    SumNonNegative(correct);
    QuotientInUnitInterval(Sum(correct), Sum(weights));
  }

  /** With all weights equal the weighted accuracy is the plain fraction of correct predictions. */
  lemma EqualWeightsGivePlainAccuracy(predicted: seq<Label>, actual: seq<Label>, weights: seq<real>, c: real)
    requires |predicted| == |actual| == |weights| > 0 && c > 0.0
    requires forall j :: 0 <= j < |weights| ==> weights[j] == c
    ensures Sum(weights) != 0.0
    ensures WeightedAccuracy(predicted, actual, weights) == PlainAccuracy(predicted, actual)
  {
    EqualWeightsRatio(Hits(predicted, actual), weights, c);
  }

  /** The same on the hits: the correct weights over all weights is the mean of the 0/1 matches. */
  lemma EqualWeightsRatio(h: seq<bool>, weights: seq<real>, c: real)
    requires |h| == |weights| > 0 && c > 0.0
    requires forall j :: 0 <= j < |weights| ==> weights[j] == c
    ensures Sum(weights) != 0.0
    ensures Sum(CorrectWeights(h, weights)) / Sum(weights) == Mean(Matches(h))
  {
    ConstantSum(weights, c);
    CorrectSum(h, weights, c);
    RatioOfScaledSums(h, weights, c);
  }

  /** Both sums carry the factor c, and it cancels. */
  lemma RatioOfScaledSums(h: seq<bool>, weights: seq<real>, c: real)
    requires |h| == |weights| > 0 && c > 0.0
    requires Sum(weights) == (|weights| as real) * c
    requires Sum(CorrectWeights(h, weights)) == Sum(Matches(h)) * c
    ensures Sum(weights) != 0.0
    ensures Sum(CorrectWeights(h, weights)) / Sum(weights) == Mean(Matches(h))
  {
    CancelFactor(Sum(CorrectWeights(h, weights)), Sum(weights), Sum(Matches(h)), |weights| as real, c);
    assert |Matches(h)| == |weights|;
  }

  lemma {:induction false} ConstantSum(a: seq<real>, c: real)
    requires forall j :: 0 <= j < |a| ==> a[j] == c
    ensures Sum(a) == (|a| as real) * c
  {
    if a != [] {
      ConstantSum(a[1..], c);
    }
  }

  /** With every weight equal to c, the correct weights sum to c times the number of hits. */
  lemma {:induction false} CorrectSum(h: seq<bool>, weights: seq<real>, c: real)
    requires |h| == |weights|
    requires forall j :: 0 <= j < |weights| ==> weights[j] == c
    ensures Sum(CorrectWeights(h, weights)) == Sum(Matches(h)) * c
  {
    if h != [] {
      CorrectSum(h[1..], weights[1..], c);
      assert CorrectWeights(h, weights)[1..] == CorrectWeights(h[1..], weights[1..]);
      assert Matches(h)[1..] == Matches(h[1..]);
    }
  }

  /** Dividing s * c by n * c cancels the common factor c. */
  lemma CancelFactor(x: real, y: real, s: real, n: real, c: real)
    requires n > 0.0 && c > 0.0 && x == s * c && y == n * c
    ensures y != 0.0 && x / y == s / n
  {
    var q := s / n;
    assert q * n == s;
    assert (q * n) * c == q * (n * c);
  }

  /**
   * combined_score = mean of (1 - geometric score) and the accuracy: in
   * [0,1] when both are, and 1 exactly when the geometric score is 0 and the
   * accuracy is 1.
   */
  function CombinedScore(geometric: real, accuracy: real): (r: real)
    ensures 0.0 <= geometric <= 1.0 && 0.0 <= accuracy <= 1.0 ==>
      0.0 <= r <= 1.0 && (r == 1.0 <==> geometric == 0.0 && accuracy == 1.0)
    ensures geometric <= 1.0 && accuracy >= 0.0 ==> r >= 0.0
  {
    ((1.0 - geometric) + accuracy) / 2.0
  }
}
