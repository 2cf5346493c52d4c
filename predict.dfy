/**
 * predict_near_far: for every catalogue point, the k nearest model points
 * vote on its near/far label, and the vote's confidence weight is one over
 * the median of their distances.
 */
module Predict {
  import opened Frames
  import opened DistanceStage
  import opened Neighbours
  import opened Vote

  /** One row of what kneighbors returns: neighbour indices and their distances, nearest first. */
  datatype Neighbourhood = Neighbourhood(indices: seq<nat>, distances: seq<real>)

  /**
   * nn.kneighbors(catalogue_data): for catalogue point j the k nearest model
   * points under the same metric that produced the distance matrix D, so
   * their distances are entries of D's column j.
   */
  function KNeighbors(D: seq<seq<real>>, m: nat, n: nat, k: nat): (r: seq<Neighbourhood>)
    requires IsMatrix(D, m, n) && k <= m
    ensures |r| == n
    ensures k > 0 ==> forall j :: 0 <= j < n ==> WellFormed(r[j], m, k)
  {
    seq(n, j requires 0 <= j < n => ChooseNeighbours(D, j, k))
  }

  function ChooseNeighbours(D: seq<seq<real>>, j: nat, k: nat): (h: Neighbourhood)
    requires forall i :: 0 <= i < |D| ==> j < |D[i]|
    requires k <= |D|
    ensures k > 0 ==> WellFormed(h, |D|, k)
  {
    var c := Column(D, j);
    var idx := KNearest(c, k);
    Neighbourhood(idx, DistancesAt(c, idx))
  }

  /**
   * The neighbourhood of catalogue point j holds its k nearest model points,
   * nearest first, with their distances taken from column j of D.
   */
  lemma KNeighborsAreNearest(D: seq<seq<real>>, m: nat, n: nat, k: nat, j: nat)
    requires IsMatrix(D, m, n) && k <= m && j < n
    ensures var h := KNeighbors(D, m, n, k)[j];
      IsKNearest(Column(D, j), k, h.indices) &&
      |h.distances| == k && Ascending(h.distances) &&
      forall t :: 0 <= t < k ==> h.distances[t] == D[h.indices[t]][j]
  {
  }

  /** model_data['near_far'].iloc[idx].values */
  function NeighbourLabels(model: seq<Row>, idx: seq<nat>): (r: seq<Label>)
    requires forall t :: 0 <= t < |idx| ==> idx[t] < |model|
    ensures |r| == |idx| && forall t :: 0 <= t < |idx| ==> r[t] == model[idx[t]].nearFar
  {
    seq(|idx|, t requires 0 <= t < |idx| => model[idx[t]].nearFar)
  }

  /** 1 / np.median(dist): infinite when the median is 0, as numpy's float division gives inf. */
  function WeightOf(dist: seq<real>): (r: Weight)
    requires |dist| > 0 && Ascending(dist)
    ensures r.Infinite? <==> Median(dist) == 0.0
    ensures r.Finite? ==> r.w * Median(dist) == 1.0
    ensures Median(dist) > 0.0 ==> r.Finite? && r.w > 0.0
  {
    var med := Median(dist);
    if med == 0.0 then Infinite else Finite(1.0 / med)
  }

  /** A neighbourhood as kneighbors returns it for k neighbours of m model points. */
  predicate WellFormed(h: Neighbourhood, m: nat, k: nat) {
    |h.indices| == k && |h.distances| == k && k > 0 &&
    (forall t :: 0 <= t < k ==> h.indices[t] < m) &&
    Ascending(h.distances)
  }

  /** The predicted label for every catalogue point. */
  function Predictions(model: seq<Row>, hoods: seq<Neighbourhood>, k: nat): (r: seq<Label>)
    requires forall j :: 0 <= j < |hoods| ==> WellFormed(hoods[j], |model|, k)
    ensures |r| == |hoods|
  {
    seq(|hoods|, j requires 0 <= j < |hoods| =>
      assert WellFormed(hoods[j], |model|, k);
      MostCommon(NeighbourLabels(model, hoods[j].indices)))
  }

  /** The vote weight for every catalogue point. */
  function Weights(hoods: seq<Neighbourhood>, m: nat, k: nat): (r: seq<Weight>)
    requires forall j :: 0 <= j < |hoods| ==> WellFormed(hoods[j], m, k)
    ensures |r| == |hoods|
  {
    seq(|hoods|, j requires 0 <= j < |hoods| =>
      assert WellFormed(hoods[j], m, k);
      WeightOf(hoods[j].distances))
  }

  /**
   * predict_near_far: one prediction and one weight per catalogue point,
   * the prediction being the majority label of that point's k nearest model
   * points (the first seen wins a tie) and the weight one over the median of
   * their distances.
   */
  method PredictNearFar(model: seq<Row>, catalogue: seq<Row>, D: seq<seq<real>>, k: nat)
    returns (predicted: seq<Label>, weights: seq<Weight>)
    requires IsMatrix(D, |model|, |catalogue|) && 1 <= k <= |model|
    ensures |predicted| == |catalogue| && |weights| == |catalogue|
    ensures var hoods := KNeighbors(D, |model|, |catalogue|, k);
      predicted == Predictions(model, hoods, k) && weights == Weights(hoods, |model|, k)
  {
    var hoods := KNeighbors(D, |model|, |catalogue|, k);
    predicted, weights := VoteAndWeigh(model, hoods, k);
  }

  /** The loop over the neighbourhoods, appending a vote and a weight per catalogue point. */
  method VoteAndWeigh(model: seq<Row>, hoods: seq<Neighbourhood>, k: nat)
    returns (predicted: seq<Label>, weights: seq<Weight>)
    requires forall j :: 0 <= j < |hoods| ==> WellFormed(hoods[j], |model|, k)
    ensures predicted == Predictions(model, hoods, k)
    ensures weights == Weights(hoods, |model|, k)
  {
    predicted, weights := [], [];
    for j := 0 to |hoods|
      invariant predicted == Predictions(model, hoods, k)[..j]
      invariant weights == Weights(hoods, |model|, k)[..j]
    {
      var neighboursNf := NeighbourLabels(model, hoods[j].indices);
      var vote := MostCommon(neighboursNf);
      var weight := WeightOf(hoods[j].distances);
      VoteAt(model, hoods, k, j);
      PrefixStep(Predictions(model, hoods, k), j);
      PrefixStep(Weights(hoods, |model|, k), j);
      predicted := predicted + [vote];
      weights := weights + [weight];
    }
  }

  /** Entry j of the predictions is the vote of neighbourhood j. */
  lemma VoteAt(model: seq<Row>, hoods: seq<Neighbourhood>, k: nat, j: nat)
    requires forall j :: 0 <= j < |hoods| ==> WellFormed(hoods[j], |model|, k)
    requires j < |hoods|
    ensures WellFormed(hoods[j], |model|, k)
    ensures Predictions(model, hoods, k)[j] == MostCommon(NeighbourLabels(model, hoods[j].indices))
  {
  }

  /** Extending a prefix by one element. */
  lemma PrefixStep<T>(s: seq<T>, j: nat)
    requires j < |s|
    ensures s[..j + 1] == s[..j] + [s[j]]
  {
  }
}
