/**
 * analyse_model_4d: the geometric score, the weighted near/far accuracy,
 * their combination and the closest-point residuals of one model against
 * the catalogue. The distance matrix D (model rows, catalogue columns) is
 * what calculate_mahalanobis_distances returns for the two scaled tables.
 */
module Analyse {
  import opened Frames
  import opened DistanceStage
  import opened Accuracy
  import opened Neighbours
  import opened Vote
  import opened Predict

  /** errors: every catalogue point minus the model point it was matched to. */
  function Residuals(catalogue: seq<Row>, model: seq<Row>, closest: seq<nat>): (r: seq<Coord>)
    requires |closest| == |catalogue| && forall j :: 0 <= j < |closest| ==> closest[j] < |model|
    ensures |r| == |catalogue|
    ensures forall j :: 0 <= j < |r| ==> r[j] == Minus(catalogue[j].pos, model[closest[j]].pos)
  {
    seq(|catalogue|, j requires 0 <= j < |catalogue| => Minus(catalogue[j].pos, model[closest[j]].pos))
  }

  /** The finite values of weights that contain no inf. */
  function FiniteWeights(ws: seq<Weight>): (r: seq<real>)
    requires forall j :: 0 <= j < |ws| ==> ws[j].Finite?
    ensures |r| == |ws| && forall j :: 0 <= j < |ws| ==> r[j] == ws[j].w
  {
    seq(|ws|, j requires 0 <= j < |ws| => ws[j].w)
  }

  /** The near/far labels of a table. */
  function LabelsOf(rows: seq<Row>): (r: seq<Label>)
    ensures |r| == |rows| && forall j :: 0 <= j < |rows| ==> r[j] == rows[j].nearFar
  {
    seq(|rows|, j requires 0 <= j < |rows| => rows[j].nearFar)
  }

  /** Some catalogue point's neighbours sit at median distance 0, so its weight is inf. */
  predicate SomeZeroMedian(D: seq<seq<real>>, m: nat, n: nat, k: nat)
    requires IsMatrix(D, m, n) && 1 <= k <= m
  {
    var hoods := KNeighbors(D, m, n, k);
    exists j :: 0 <= j < n && Median(hoods[j].distances) == 0.0
  }

  /**
   * The evaluation of one model. Which failure it ends in, if any, is the
   * first of: an empty table, a neighbour count outside 1..m, a zero largest
   * distance, a zero median neighbour distance. Otherwise the three scores
   * lie in [0,1], every residual is its catalogue point minus a closest
   * model point (the first one in model order), and the model table is kept
   * as it was.
   */
  function AnalyseModel(model: seq<Row>, catalogue: seq<Row>, name: string, k: int, D: seq<seq<real>>)
    : (r: Result<ModelResult>)
    requires IsMatrix(D, |model|, |catalogue|) && NonNegative(D)
    ensures r == Err(EmptyInput) <==> |model| == 0 || |catalogue| == 0
    ensures r == Err(InvalidNeighbourCount) <==>
      |model| > 0 && |catalogue| > 0 && (k < 1 || k > |model|)
    ensures r == Err(ZeroMaxDistance) <==>
      |model| > 0 && |catalogue| > 0 && 1 <= k <= |model| && MaxEntry(D, |model|, |catalogue|) == 0.0
    ensures r == Err(ZeroMedianDistance) <==>
      |model| > 0 && |catalogue| > 0 && 1 <= k <= |model| && MaxEntry(D, |model|, |catalogue|) != 0.0 &&
      SomeZeroMedian(D, |model|, |catalogue|, k)
    ensures r.Ok? ==> IsAcceptableResult(r.value, model, catalogue, name, D)
    ensures (|model| > 0 && |catalogue| > 0 && 1 <= k <= |model| && MaxEntry(D, |model|, |catalogue|) != 0.0 &&
             !SomeZeroMedian(D, |model|, |catalogue|, k)) ==>
      r.Ok? && ScoresFromDistances(r.value, model, catalogue, k, D)
  {
    var m, n := |model|, |catalogue|;
    if m == 0 || n == 0 then Err(EmptyInput)
    else if k < 1 || k > m then Err(InvalidNeighbourCount)
    else if MaxEntry(D, m, n) == 0.0 then Err(ZeroMaxDistance)
    else if SomeZeroMedian(D, m, n, k) then Err(ZeroMedianDistance)
    else Ok(Evaluate(model, catalogue, name, k, D))
  }

  /**
   * What every successful evaluation satisfies: the three scores in [0,1],
   * the combined score made of the other two, one residual per catalogue
   * point, each the catalogue point minus its closest model point (the
   * first in model order among equally close ones), and the model table
   * kept as it was.
   */
  ghost predicate IsAcceptableResult(res: ModelResult, model: seq<Row>, catalogue: seq<Row>, name: string, D: seq<seq<real>>)
    requires IsMatrix(D, |model|, |catalogue|)
  {
    res.name == name && res.data == model && res.originalData == None &&
    0.0 <= res.overallDistance <= 1.0 && 0.0 <= res.nfAccuracy <= 1.0 && 0.0 <= res.combinedScore <= 1.0 &&
    res.combinedScore == CombinedScore(res.overallDistance, res.nfAccuracy) &&
    |res.errors| == |catalogue| && ResidualsAgainstClosest(res.errors, model, catalogue, D)
  }

  /**
   * Every residual is its catalogue point minus a model point at the
   * smallest distance in that catalogue point's column, the first such in
   * model order.
   */
  ghost predicate ResidualsAgainstClosest(errors: seq<Coord>, model: seq<Row>, catalogue: seq<Row>, D: seq<seq<real>>)
    requires IsMatrix(D, |model|, |catalogue|) && |errors| == |catalogue|
  {
    forall j :: 0 <= j < |catalogue| ==> HasClosestResidual(errors, model, catalogue, D, j)
  }

  ghost predicate HasClosestResidual(errors: seq<Coord>, model: seq<Row>, catalogue: seq<Row>, D: seq<seq<real>>, j: nat)
    requires IsMatrix(D, |model|, |catalogue|) && |errors| == |catalogue| && j < |catalogue|
  {
    exists i :: 0 <= i < |model| && IsClosestResidual(errors, model, catalogue, D, j, i)
  }

  ghost predicate IsClosestResidual(errors: seq<Coord>, model: seq<Row>, catalogue: seq<Row>, D: seq<seq<real>>, j: nat, i: nat)
    requires IsMatrix(D, |model|, |catalogue|) && |errors| == |catalogue| && j < |catalogue| && i < |model|
  {
    errors[j] == Minus(catalogue[j].pos, model[i].pos) &&
    (forall q :: 0 <= q < |model| ==> D[i][j] <= D[q][j]) &&
    (forall q :: 0 <= q < i ==> D[i][j] < D[q][j])
  }

  /**
   * The two scores of a successful evaluation come from the distances: the
   * geometric score is the mean closest normalised distance, and the label
   * accuracy is the weighted share of the kneighbors votes that match the
   * catalogue's labels, weighted by one over each median neighbour distance.
   */
  ghost predicate ScoresFromDistances(res: ModelResult, model: seq<Row>, catalogue: seq<Row>, k: nat, D: seq<seq<real>>)
    requires IsMatrix(D, |model|, |catalogue|) && NonNegative(D)
    requires |model| > 0 && |catalogue| > 0 && 1 <= k <= |model|
    requires MaxEntry(D, |model|, |catalogue|) != 0.0 && !SomeZeroMedian(D, |model|, |catalogue|, k)
  {
    var m, n := |model|, |catalogue|;
    var w := PositiveWeights(D, m, n, k);
    SumPositive(w);
    res.overallDistance == GeometricScore(Normalise(D, MaxEntry(D, m, n)), m, n) &&
    res.nfAccuracy == WeightedAccuracy(Predictions(model, KNeighbors(D, m, n, k), k), LabelsOf(catalogue), w)
  }

  /** The scores of a model that none of the failures applies to. */
  function Evaluate(model: seq<Row>, catalogue: seq<Row>, name: string, k: nat, D: seq<seq<real>>)
    : (res: ModelResult)
    requires IsMatrix(D, |model|, |catalogue|) && NonNegative(D)
    requires |model| > 0 && |catalogue| > 0 && 1 <= k <= |model|
    requires MaxEntry(D, |model|, |catalogue|) != 0.0 && !SomeZeroMedian(D, |model|, |catalogue|, k)
    ensures IsAcceptableResult(res, model, catalogue, name, D)
    ensures ScoresFromDistances(res, model, catalogue, k, D)
  {
    var m, n := |model|, |catalogue|;
    var mx := MaxEntry(D, m, n);
    var N := Normalise(D, mx);
    var closest := ClosestIndices(N, m, n);
    var overall := GeometricScore(N, m, n);
    var predicted := Predictions(model, KNeighbors(D, m, n, k), k);
    var w := PositiveWeights(D, m, n, k);
    NormalisedInUnitInterval(D, m, n);
    GeometricScoreInUnitInterval(N, m, n);
    AccuracyInUnitInterval(predicted, LabelsOf(catalogue), w);
    var accuracy := WeightedAccuracy(predicted, LabelsOf(catalogue), w);
    var errors := Residuals(catalogue, model, closest);
    ResidualsAtClosest(model, catalogue, D, mx, N, closest, errors);
    ModelResult(name, overall, accuracy, CombinedScore(overall, accuracy), errors, model, None)
  }

  /** The weights of a model with no zero median: all finite and positive. */
  function PositiveWeights(D: seq<seq<real>>, m: nat, n: nat, k: nat): (w: seq<real>)
    requires IsMatrix(D, m, n) && NonNegative(D) && 1 <= k <= m && !SomeZeroMedian(D, m, n, k)
    ensures |w| == n
    ensures forall j :: 0 <= j < n ==> w[j] > 0.0 && Weights(KNeighbors(D, m, n, k), m, k)[j] == Finite(w[j])
  {
    var hoods := KNeighbors(D, m, n, k);
    var weights := Weights(hoods, m, k);
    assert forall j :: 0 <= j < n ==> Median(hoods[j].distances) > 0.0 by {
      forall j | 0 <= j < n
        ensures Median(hoods[j].distances) > 0.0
      {
        KNeighborsAreNearest(D, m, n, k, j);
        assert hoods[j].distances[0] >= 0.0;
      }
    }
    FiniteWeights(weights)
  }

  /** Each residual is taken against a model point closest in D, the first such in model order. */
  lemma ResidualsAtClosest(model: seq<Row>, catalogue: seq<Row>, D: seq<seq<real>>, mx: real,
                           N: seq<seq<real>>, closest: seq<nat>, errors: seq<Coord>)
    requires IsMatrix(D, |model|, |catalogue|) && |model| > 0 && mx > 0.0 && N == Normalise(D, mx)
    requires IsMatrix(N, |model|, |catalogue|) && closest == ClosestIndices(N, |model|, |catalogue|)
    requires errors == Residuals(catalogue, model, closest)
    ensures ResidualsAgainstClosest(errors, model, catalogue, D)
  {
    ClosestInRawDistances(D, mx, N, closest, |model|, |catalogue|);
    forall j | 0 <= j < |catalogue|
      ensures HasClosestResidual(errors, model, catalogue, D, j)
    {
      assert IsClosestResidual(errors, model, catalogue, D, j, closest[j]);
    }
  }

  /** Dividing by the positive largest entry does not change which model point is closest. */
  lemma ClosestInRawDistances(D: seq<seq<real>>, mx: real, N: seq<seq<real>>, closest: seq<nat>, m: nat, n: nat)
    requires IsMatrix(D, m, n) && m > 0 && mx > 0.0 && N == Normalise(D, mx)
    requires IsMatrix(N, m, n) && closest == ClosestIndices(N, m, n)
    ensures forall j, q :: 0 <= j < n && 0 <= q < m ==> D[closest[j]][j] <= D[q][j]
    ensures forall j, q :: 0 <= j < n && 0 <= q < closest[j] ==> D[closest[j]][j] < D[q][j]
  {
    forall j, q | 0 <= j < n && 0 <= q < m
      ensures D[closest[j]][j] <= D[q][j]
      ensures q < closest[j] ==> D[closest[j]][j] < D[q][j]
    {
      var i := closest[j];
      assert N[i][j] == D[i][j] / mx && N[q][j] == D[q][j] / mx;
      DivisionOrder(D[i][j], D[q][j], mx);
    }
  }

  lemma DivisionOrder(x: real, y: real, mx: real)
    requires mx > 0.0
    ensures x / mx <= y / mx <==> x <= y
    ensures x / mx < y / mx <==> x < y
  {
  }

  /**
   * For the given distance matrix, the only catalogue point is at distance 0
   * from its single neighbour. The median neighbour distance is then 0, so the
   * weight is infinite, and the evaluation ends in ZeroMedianDistance.
   */
  lemma CoincidentNeighbourGivesZeroMedian()
    ensures var origin := Coord(0.0, 0.0, 0.0);
      var model := [Row(origin, "Near", Some(0)), Row(Coord(1.0, 1.0, 1.0), "Far", Some(1))];
      var catalogue := [Row(origin, "Near", Some(0))];
      AnalyseModel(model, catalogue, "A", 1, [[0.0], [2.0]]) == Err(ZeroMedianDistance)
  {
    var D := [[0.0], [2.0]];
    SingleNeighbourAtZero(D, 2, 1, 0, 0);
    assert SomeZeroMedian(D, 2, 1, 1);
    assert MaxEntry(D, 2, 1) == 2.0;
  }

  /** With one neighbour and a model point at distance 0, the median neighbour distance is 0. */
  lemma SingleNeighbourAtZero(D: seq<seq<real>>, m: nat, n: nat, j: nat, i: nat)
    requires IsMatrix(D, m, n) && NonNegative(D) && j < n && i < m && D[i][j] == 0.0
    ensures Median(KNeighbors(D, m, n, 1)[j].distances) == 0.0
  {
    var h := KNeighbors(D, m, n, 1)[j];
    KNeighborsAreNearest(D, m, n, 1, j);
    if i !in h.indices {
      assert Closer(Column(D, j), h.indices[0], i);
    }
  }
}
