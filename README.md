# 4-D model comparison, modelled in Dafny

This project models the core of the 4-D (l, b, v, near/far) model comparison,
`4d_comparison/4d_model_comparison.py`. Each Galactic rotation model is a set of
points: longitude l, latitude b, line-of-sight velocity v and a Near or Far flag.
Each model is compared with a catalogue of points of the same kind. The comparison
has five stages:

- **Preprocessing.** The near/far flag is encoded as 0/1 and the coordinates are
  robust-scaled.
- **Geometric score.** The model-to-catalogue distance matrix is divided by its
  largest entry. Every catalogue point is matched to its closest model point. The
  geometric score is the mean of those closest normalised distances.
- **Label accuracy.** The k nearest model points of each catalogue point vote on its
  near/far flag (`Counter.most_common`; a tie goes to the label seen first). Each
  vote is weighted by one over the median of the neighbours' distances. The label
  accuracy is the weighted share of correct votes.
- **Combined score.** The mean of one minus the geometric score and the label
  accuracy.
- **Ranking.** `main` uses k = round(sqrt(model size)) neighbours and analyses every
  model. It attaches each model's original table to its result, then sorts the
  results by combined score, highest first. The sort is stable.

Floating-point numbers are modelled as Dafny `real`s. Each model's distance matrix D
(one row per model point, one column per catalogue point, non-negative) is an input
of the model. The source computes it from the two scaled tables with the
Mahalanobis metric. kneighbors runs under the same metric, so its distances are
entries of D's columns. Because of this, the residuals (`errors`) and every distance
are in scaled units, as in the source.

Where numpy gives an exception or a NaN score, the model returns an `Err`:

- `EmptyInput`: an empty table, where `np.max` raises.
- `InvalidNeighbourCount`: k outside 1..m. scikit-learn rejects k < 1 when the
  neighbour search is fitted (line 35) and k > m in `kneighbors` (line 36).
- `ZeroMaxDistance`: a largest distance of 0, so the normalisation is 0/0.
- `ZeroMedianDistance`: a median neighbour distance of 0, so the weight is inf and
  the accuracy NaN.
- `NoModels`: an empty model list, where `models[0]` raises.

The errors are checked in the order listed. `Ranking.RankModels` returns no ranking
when any model's analysis fails, and its error is that of the first model that
fails. In the source only the exceptions stop `main`. The two NaN cases do not: `main`
goes on to sort and print results whose scores are NaN.

A catalogue point at distance 0 from its only neighbour (k = 1) gets the weight
`1 / np.median([0.0])`, which is inf (line 43). `nf_accuracy` is then inf/inf or
0·inf over inf, which is NaN (line 61). `Analyse.CoincidentNeighbourGivesZeroMedian`
states that the model ends in `ZeroMedianDistance` for such a distance matrix. The
lemma takes D = [[0.0], [2.0]] as given; it is not derived from the two tables. In
the source, a model of only two points has a singular covariance matrix, so
`np.linalg.inv` raises at line 28 before line 43 is reached. That failure is not
part of this model.

Modules, one per file, follow the pipeline:

- `Frames`: the data.
- `Preprocess`: `preprocess_data`.
- `DistanceStage`: normalisation, argmin and the geometric score.
- `Neighbours`: the kneighbors choice and the median.
- `Vote`: the Counter vote.
- `Predict`: `predict_near_far`.
- `Accuracy`: the weighted accuracy and the combined score.
- `Analyse`: `analyse_model_4d`.
- `Ranking`: `main`'s ranking.

## Model

| member | source | states |
|---|---|---|
| Frames.Minus | 4d_comparison/4d_model_comparison.py:65 | adding the second point back to the difference gives the first point, on every axis |
| Preprocess.EncodeLabel | 4d_comparison/4d_model_comparison.py:15 | Near maps to 0 and Far maps to 1, each if and only if; any other flag maps to a missing value |
| Preprocess.SafeScale | 4d_comparison/4d_model_comparison.py:16-18 | the scale used is never zero, and a non-zero fitted scale is used unchanged |
| Preprocess.Transform | 4d_comparison/4d_model_comparison.py:18 | the scaler's transform (x - centre) / scale on each axis; its inverse is proved in TransformRoundTrip |
| Preprocess.InverseTransform | 4d_comparison/4d_model_comparison.py:18 | the inverse transform; TransformRoundTrip proves it undoes Transform |
| Preprocess.TransformRoundTrip | 4d_comparison/4d_model_comparison.py:16-20 | the scaler's inverse transform undoes its transform |
| Preprocess.Encoded | 4d_comparison/4d_model_comparison.py:14-15 | the copy with the code column: one row per input row, with the same coordinates and flag and the flag's code |
| Preprocess.PreprocessData | 4d_comparison/4d_model_comparison.py:13-23 | both returned tables keep the row count, the flag and its code. The copy keeps the coordinates. The scaled coordinates un-scale to the input coordinates |
| DistanceStage.MaxEntry | 4d_comparison/4d_model_comparison.py:54 | the result bounds every entry of the matrix and is one of its entries |
| DistanceStage.Normalise | 4d_comparison/4d_model_comparison.py:54 | the same shape, and each entry times the largest entry gives the raw distance back; NormalisedInUnitInterval and NormalisedAttainsOne carry its range |
| DistanceStage.NormalisedInUnitInterval | 4d_comparison/4d_model_comparison.py:54 | dividing a non-negative matrix by its positive largest entry keeps its shape and puts every entry in [0,1] |
| DistanceStage.NormalisedAttainsOne | 4d_comparison/4d_model_comparison.py:54 | some normalised entry is exactly 1 |
| DistanceStage.ArgMin | 4d_comparison/4d_model_comparison.py:55 | the index holds a smallest element, and every earlier element is strictly larger (the first of several minima) |
| DistanceStage.ArgMinAttainsMin | 4d_comparison/4d_model_comparison.py:55-56 | the element at the argmin is the minimum |
| DistanceStage.ClosestIndices | 4d_comparison/4d_model_comparison.py:55 | each catalogue column gets a model row with that column's smallest entry, the first such row |
| DistanceStage.ColumnMinima | 4d_comparison/4d_model_comparison.py:56 | each column's value is at most every entry of that column |
| DistanceStage.ColumnMinimumAttained | 4d_comparison/4d_model_comparison.py:56 | each column minimum is an entry of its column |
| DistanceStage.MinimaAtClosest | 4d_comparison/4d_model_comparison.py:55-56 | the column minimum is the entry in the row that the column is matched to |
| DistanceStage.MeanInUnitInterval | 4d_comparison/4d_model_comparison.py:56 | the mean of values in [0,1] is in [0,1] |
| DistanceStage.GeometricScore | 4d_comparison/4d_model_comparison.py:56 | overall_distance_3d, the mean of the column minima; GeometricScoreInUnitInterval proves it lies in [0,1] |
| DistanceStage.GeometricScoreInUnitInterval | 4d_comparison/4d_model_comparison.py:56 | with entries in [0,1], overall_distance_3d is in [0,1] |
| Neighbours.InsertByDistance | 4d_comparison/4d_model_comparison.py:36 | inserting one index keeps the list sorted by (distance, index) and adds exactly that index |
| Neighbours.SortIndices | 4d_comparison/4d_model_comparison.py:36 | all model indices, each once, sorted by (distance, index) |
| Neighbours.KNearest | 4d_comparison/4d_model_comparison.py:34-36 | k distinct indices, nearest first, and every index left out is farther than every index chosen |
| Neighbours.KNearestUnique | 4d_comparison/4d_model_comparison.py:34-36 | any two lists that meet that description are equal, so the choice is fully determined |
| Neighbours.DistancesAt | 4d_comparison/4d_model_comparison.py:36 | the returned distances belong to the chosen indices and are ascending when the indices are nearest first |
| Neighbours.Median | 4d_comparison/4d_model_comparison.py:43 | twice the result is the sum of the two middle values; it is at least the lower half and at most the upper half |
| Vote.Count | 4d_comparison/4d_model_comparison.py:42 | the Counter's count: the number of occurrences of the label in the neighbour labels (its multiplicity) |
| Vote.FirstIndex | 4d_comparison/4d_model_comparison.py:42 | the position of the first occurrence of a label |
| Vote.Keys | 4d_comparison/4d_model_comparison.py:42 | the Counter's keys: exactly the labels present, in order of first occurrence |
| Vote.MaxByCount | 4d_comparison/4d_model_comparison.py:42 | the key with the largest count, the first such key in key order |
| Vote.MostCommon | 4d_comparison/4d_model_comparison.py:42 | the winner is among the labels, no label is more frequent, and of the equally frequent labels it appears first |
| Vote.FirstOfEqualCounts | 4d_comparison/4d_model_comparison.py:42 | the first key of largest count appears no later than any label with that count |
| Vote.MostCommonUnique | 4d_comparison/4d_model_comparison.py:42 | those three properties single out MostCommon's label |
| Vote.TieGoesToFirstNeighbour | 4d_comparison/4d_model_comparison.py:42 | with one Far and one Near neighbour, the nearer neighbour's label wins |
| Predict.KNeighbors | 4d_comparison/4d_model_comparison.py:36 | one neighbourhood per catalogue point, each with k in-range indices and ascending distances |
| Predict.KNeighborsAreNearest | 4d_comparison/4d_model_comparison.py:34-36 | each neighbourhood holds the k nearest model points, nearest first, with their distances from D's column |
| Predict.NeighbourLabels | 4d_comparison/4d_model_comparison.py:41 | the labels of the chosen model rows, in neighbour order |
| Predict.WeightOf | 4d_comparison/4d_model_comparison.py:43 | the weight is infinite exactly when the median is 0; otherwise it times the median is 1, and it is positive when the median is |
| Predict.Predictions | 4d_comparison/4d_model_comparison.py:38-42 | one vote per neighbourhood; VoteAt states that entry j is the vote of neighbourhood j, and VoteAndWeigh that the loop builds this list |
| Predict.Weights | 4d_comparison/4d_model_comparison.py:39-44 | one weight per neighbourhood; VoteAndWeigh states that the loop builds this list, and PositiveWeights that it is finite and positive when no median is 0 |
| Predict.PredictNearFar | 4d_comparison/4d_model_comparison.py:33-46 | one prediction and one weight per catalogue point: the majority vote and the weight of that point's k nearest model points |
| Predict.VoteAndWeigh | 4d_comparison/4d_model_comparison.py:38-46 | the loop's two lists equal the per-point votes and weights |
| Predict.VoteAt | 4d_comparison/4d_model_comparison.py:41-42 | entry j of the predictions is the vote of neighbourhood j |
| Accuracy.Hits | 4d_comparison/4d_model_comparison.py:61 | entry j is true exactly when prediction j equals label j |
| Accuracy.Matches | 4d_comparison/4d_model_comparison.py:61 | the hits as 1.0 and 0.0 |
| Accuracy.CorrectWeights | 4d_comparison/4d_model_comparison.py:61 | each weight where the prediction is right, 0 elsewhere |
| Accuracy.WeightedAccuracy | 4d_comparison/4d_model_comparison.py:61 | nf_accuracy; AccuracyInUnitInterval puts it in [0,1] for positive weights, and EqualWeightsGivePlainAccuracy makes it the plain fraction correct when the weights are equal |
| Accuracy.AccuracyInUnitInterval | 4d_comparison/4d_model_comparison.py:61 | with positive weights, the weight sum is positive and nf_accuracy is in [0,1] |
| Accuracy.EqualWeightsGivePlainAccuracy | 4d_comparison/4d_model_comparison.py:61 | with equal weights, nf_accuracy is the plain fraction of correct predictions |
| Accuracy.EqualWeightsRatio | 4d_comparison/4d_model_comparison.py:61 | the same, about the hits directly |
| Accuracy.CombinedScore | 4d_comparison/4d_model_comparison.py:63 | in [0,1] when both parts are, and 1 exactly when the geometric score is 0 and the accuracy is 1 |
| Analyse.Residuals | 4d_comparison/4d_model_comparison.py:65 | one residual per catalogue point: that point minus its matched model point |
| Analyse.LabelsOf | 4d_comparison/4d_model_comparison.py:60 | the near/far column of the catalogue |
| Analyse.PositiveWeights | 4d_comparison/4d_model_comparison.py:43-44 | when no median is 0, every weight is finite and positive |
| Analyse.AnalyseModel | 4d_comparison/4d_model_comparison.py:49-74 | each failure holds if and only if its condition holds and the earlier ones do not. Success happens exactly when none applies. Then: the scores are in [0,1]; the combined score combines the other two; the geometric score and the accuracy are those of the distances and the kneighbors votes; each residual is taken against a closest model point (the first in model order); the model table is kept |
| Analyse.Evaluate | 4d_comparison/4d_model_comparison.py:53-74 | the result record of a model that none of the failures applies to meets those guarantees |
| Analyse.ResidualsAtClosest | 4d_comparison/4d_model_comparison.py:55 | each residual uses a model point closest in the raw distances |
| Analyse.ClosestInRawDistances | 4d_comparison/4d_model_comparison.py:54-55 | dividing by the positive largest entry does not change which model point is closest |
| Analyse.DivisionOrder | 4d_comparison/4d_model_comparison.py:54 | dividing by a positive number keeps order, both ways |
| Analyse.CoincidentNeighbourGivesZeroMedian | 4d_comparison/4d_model_comparison.py:43 | a catalogue point on top of its only neighbour ends in ZeroMedianDistance |
| Analyse.SingleNeighbourAtZero | 4d_comparison/4d_model_comparison.py:36 | with one neighbour and a model point at distance 0, the median neighbour distance is 0 |
| Ranking.NeighbourCount | 4d_comparison/4d_model_comparison.py:95 | the result r is the integer nearest the square root: (2r-1)^2 < 4m < (2r+1)^2, and 0 for an empty table |
| Ranking.NeighbourCountUnique | 4d_comparison/4d_model_comparison.py:95 | only one positive r meets that bound, and NeighbourCount returns it |
| Ranking.ThreeHundredPointsGiveSeventeen | 4d_comparison/4d_model_comparison.py:95 | a model of 300 points gets 17 neighbours |
| Ranking.Collect | 4d_comparison/4d_model_comparison.py:97-100 | all values, in order, when every evaluation succeeds; otherwise the error of the first failure |
| Ranking.AnalyseAll | 4d_comparison/4d_model_comparison.py:97-100 | on success, result t is the analysis of model t |
| Ranking.FirstFailureStops | 4d_comparison/4d_model_comparison.py:97-100 | on failure, the error is that of a model whose predecessors all succeeded |
| Ranking.AnalysedResultsAcceptable | 4d_comparison/4d_model_comparison.py:97-100 | every result of a successful comprehension meets AnalyseModel's guarantees for its model |
| Ranking.AttachOriginalData | 4d_comparison/4d_model_comparison.py:102-103 | each result paired with a model gets that model's original table; nothing else changes |
| Ranking.Attached | 4d_comparison/4d_model_comparison.py:102-103 | each result paired with a model has that model's original table; every other field is unchanged, and results beyond the models are unchanged |
| Ranking.NegatedScores | 4d_comparison/4d_model_comparison.py:105 | the negated combined scores, position by position |
| Ranking.StableOrderUnique | 4d_comparison/4d_model_comparison.py:105 | there is only one order that is high-to-low and stable |
| Ranking.RankingUnique | 4d_comparison/4d_model_comparison.py:105 | hence the ranking of the results is fully determined |
| Ranking.RankingDescends | 4d_comparison/4d_model_comparison.py:105 | a ranking lists scores from highest to lowest, and equal scores keep their original order |
| Ranking.Sink | 4d_comparison/4d_model_comparison.py:105 | one insertion pass, keeping the length; SinkKeeps tracks it as a permutation step towards the stable order |
| Ranking.InsertionSort | 4d_comparison/4d_model_comparison.py:105 | the first i insertion passes, keeping the length; InsertionSortRanks proves that all passes give the stable high-to-low order |
| Ranking.SortByCombinedScore | 4d_comparison/4d_model_comparison.py:105 | the array ends as the insertion sort of its old contents |
| Ranking.InsertLast | 4d_comparison/4d_model_comparison.py:105 | one pass moves an entry towards the front past every entry scoring strictly lower |
| Ranking.InsertionSortRanks | 4d_comparison/4d_model_comparison.py:105 | the insertion sort yields a rearrangement of the results into their stable high-to-low order |
| Ranking.AttachAndSort | 4d_comparison/4d_model_comparison.py:102-105 | the attached results in their stable high-to-low order |
| Ranking.RankModels | 4d_comparison/4d_model_comparison.py:95-105 | NoModels for an empty list. Otherwise it fails exactly when some analysis with round(sqrt) neighbours fails, with that error; on success, every result with its original table, ranked stably from the highest combined score down |

## Left out

- load_data, load_and_preprocess_models and the data files: file input. The tables are parameters.
- RobustScaler's fit (median and interquartile range): the fitted centre and scale are parameters. The model covers the transform, and `Preprocess.SafeScale` covers the fit's replacement of a zero scale by 1.
- Preprocess.SafeScale: scikit-learn also replaces a scale below ten times the machine epsilon by 1. Only an exactly zero scale is replaced here, because reals have no epsilon.
- calculate_mahalanobis_distances (np.cov, np.linalg.inv, cdist): floating-point linear algebra. The distance matrix is a non-negative input, and the error of a singular covariance is not modelled.
- Neighbours.KNearest: equal distances are broken by the lower model index. scikit-learn's own tie order between equal distances is not modelled.
- Ranking.NeighbourCount: computed exactly on integers. The floating-point sqrt and round are not modelled; no square root of an integer lies halfway, so the result agrees.
- The NaN results of a zero largest distance or a zero median distance are modelled as errors. The source goes on with NaN scores and sorts them as keys; the model does not rank such results.
- Neighbours.Median requires ascending input, which kneighbors provides. np.median's own sort is not modelled.
- The result dictionaries are modelled as records. Setting the original_data key is modelled as replacing the array element, so aliasing of the dictionaries is not modelled.
- Ranking.SortByCombinedScore is an insertion sort. It is proved to produce the one stable order by score, which is what Python's sort yields; Timsort's own steps are not modelled.
- The printing of the ranking, which is output only.
- The repository's other scripts are not part of this model.
