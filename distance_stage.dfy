/**
 * The geometric stage of analyse_model_4d: the model-to-catalogue distance
 * matrix (m model rows, n catalogue columns) is divided by its largest
 * entry; every catalogue column is matched to its closest model row
 * (np.argmin over axis 0), and the geometric score is the mean of the
 * column minima.
 */
module DistanceStage {

  /** D has m rows of n entries each. */
  predicate IsMatrix(D: seq<seq<real>>, m: nat, n: nat) {
    |D| == m && forall i :: 0 <= i < m ==> |D[i]| == n
  }

  predicate NonNegative(D: seq<seq<real>>) {
    forall i, j :: 0 <= i < |D| && 0 <= j < |D[i]| ==> D[i][j] >= 0.0
  }

  /** Largest element of a non-empty sequence. */
  function MaxOf(s: seq<real>): (r: real)
    requires |s| > 0
    ensures forall k :: 0 <= k < |s| ==> s[k] <= r
    ensures exists k :: 0 <= k < |s| && s[k] == r
  {
    if |s| == 1 then s[0]
    else
      var rest := MaxOf(s[1..]);
      assert forall k :: 1 <= k < |s| ==> s[k] == s[1..][k - 1];
      if s[0] >= rest then s[0] else rest
  }

  /** Smallest element of a non-empty sequence. */
  function MinOf(s: seq<real>): (r: real)
    requires |s| > 0
    ensures forall k :: 0 <= k < |s| ==> r <= s[k]
    ensures exists k :: 0 <= k < |s| && s[k] == r
  {
    if |s| == 1 then s[0]
    else
      var rest := MinOf(s[1..]);
      assert forall k :: 1 <= k < |s| ==> s[k] == s[1..][k - 1];
      if s[0] <= rest then s[0] else rest
  }

  /** np.argmin: an index of a smallest element, the first one when several tie. */
  function ArgMin(s: seq<real>): (k: nat)
    requires |s| > 0
    ensures k < |s|
    ensures forall t :: 0 <= t < |s| ==> s[k] <= s[t]
    ensures forall t :: 0 <= t < k ==> s[k] < s[t]
  {
    if |s| == 1 then 0
    else
      var k := ArgMin(s[..|s| - 1]);
      if s[|s| - 1] < s[k] then |s| - 1 else k
  }

  /** The element ArgMin picks is the minimum. */
  lemma ArgMinAttainsMin(s: seq<real>)
    requires |s| > 0
    ensures s[ArgMin(s)] == MinOf(s)
  {
    var k :| 0 <= k < |s| && s[k] == MinOf(s);
    assert s[ArgMin(s)] <= s[k];
  }

  function Sum(s: seq<real>): real {
    if s == [] then 0.0 else s[0] + Sum(s[1..])
  }

  /** np.mean. */
  function Mean(s: seq<real>): real
    requires |s| > 0
  {
    Sum(s) / (|s| as real)
  }

  lemma {:induction false} SumBounds(s: seq<real>)
    requires forall k :: 0 <= k < |s| ==> 0.0 <= s[k] <= 1.0
    ensures 0.0 <= Sum(s) <= |s| as real
  {
    if s != [] {
      SumBounds(s[1..]);
    }
  }

  /** The mean of values in [0,1] lies in [0,1]. */
  lemma MeanInUnitInterval(s: seq<real>)
    requires |s| > 0
    requires forall k :: 0 <= k < |s| ==> 0.0 <= s[k] <= 1.0
    ensures 0.0 <= Mean(s) <= 1.0
  {
    SumBounds(s);
  }

  /** The largest entry of an m x n matrix (np.max over the whole array). */
  function MaxEntry(D: seq<seq<real>>, m: nat, n: nat): (r: real)
    requires IsMatrix(D, m, n) && m > 0 && n > 0
    ensures forall i, j :: 0 <= i < m && 0 <= j < n ==> D[i][j] <= r
    ensures exists i, j :: 0 <= i < m && 0 <= j < n && D[i][j] == r
  {
    var rowMax := seq(m, i requires 0 <= i < m => MaxOf(D[i]));
    var r := MaxOf(rowMax);
    assert forall i, j :: 0 <= i < m && 0 <= j < n ==> D[i][j] <= rowMax[i];
    assert exists i, j :: 0 <= i < m && 0 <= j < n && D[i][j] == r by {
      var i :| 0 <= i < m && rowMax[i] == r;
      var j :| 0 <= j < n && D[i][j] == rowMax[i];
    }
    r
  }

  /** distances / mx, entry by entry. */
  function Normalise(D: seq<seq<real>>, mx: real): (r: seq<seq<real>>)
    requires mx != 0.0
    ensures |r| == |D|
    ensures forall i :: 0 <= i < |D| ==> |r[i]| == |D[i]|
    ensures forall i, j :: 0 <= i < |D| && 0 <= j < |D[i]| ==> r[i][j] * mx == D[i][j]
  {
    seq(|D|, i requires 0 <= i < |D| =>
      seq(|D[i]|, j requires 0 <= j < |D[i]| => D[i][j] / mx))
  }

  /**
   * Dividing a non-negative matrix by its largest entry, when that entry is
   * positive, puts every entry in [0,1].
   */
  lemma NormalisedInUnitInterval(D: seq<seq<real>>, m: nat, n: nat)
    requires IsMatrix(D, m, n) && m > 0 && n > 0 && NonNegative(D)
    requires MaxEntry(D, m, n) > 0.0
    ensures IsMatrix(Normalise(D, MaxEntry(D, m, n)), m, n)
    ensures forall i, j :: 0 <= i < m && 0 <= j < n ==>
      0.0 <= Normalise(D, MaxEntry(D, m, n))[i][j] <= 1.0
  {
    var mx := MaxEntry(D, m, n);
    var N := Normalise(D, mx);
    forall i, j | 0 <= i < m && 0 <= j < n
      ensures 0.0 <= N[i][j] <= 1.0
    {
      QuotientInUnitInterval(D[i][j], mx);
      assert N[i][j] == D[i][j] / mx;
    }
  }

  /** ... and the largest entry becomes exactly 1. */
  lemma NormalisedAttainsOne(D: seq<seq<real>>, m: nat, n: nat)
    requires IsMatrix(D, m, n) && m > 0 && n > 0 && NonNegative(D)
    requires MaxEntry(D, m, n) > 0.0
    ensures exists i, j :: 0 <= i < m && 0 <= j < n && Normalise(D, MaxEntry(D, m, n))[i][j] == 1.0
  {
    var mx := MaxEntry(D, m, n);
    var N := Normalise(D, mx);
    var i, j :| 0 <= i < m && 0 <= j < n && D[i][j] == mx;
    QuotientInUnitInterval(D[i][j], mx);
    assert N[i][j] == D[i][j] / mx;
  }

  lemma QuotientInUnitInterval(x: real, mx: real)
    requires 0.0 <= x <= mx && mx > 0.0
    ensures 0.0 <= x / mx <= 1.0
    ensures x == mx ==> x / mx == 1.0
  {
  }

  /** Column j of a matrix: the distances from every model point to catalogue point j. */
  function Column(D: seq<seq<real>>, j: nat): (c: seq<real>)
    requires forall i :: 0 <= i < |D| ==> j < |D[i]|
    ensures |c| == |D| && forall i :: 0 <= i < |D| ==> c[i] == D[i][j]
  {
    seq(|D|, i requires 0 <= i < |D| => D[i][j])
  }

  /**
   * np.argmin(N, axis=0): for every catalogue column, the first model row
   * with the smallest entry in that column.
   */
  function ClosestIndices(N: seq<seq<real>>, m: nat, n: nat): (r: seq<nat>)
    requires IsMatrix(N, m, n) && m > 0
    ensures |r| == n
    ensures forall j :: 0 <= j < n ==> r[j] < m
    ensures forall j, i :: 0 <= j < n && 0 <= i < m ==> N[r[j]][j] <= N[i][j]
    ensures forall j, i :: 0 <= j < n && 0 <= i < r[j] ==> N[r[j]][j] < N[i][j]
  {
    seq(n, j requires 0 <= j < n => ArgMin(Column(N, j)))
  }

  /** np.min(N, axis=0): the smallest entry of every column. */
  function ColumnMinima(N: seq<seq<real>>, m: nat, n: nat): (r: seq<real>)
    requires IsMatrix(N, m, n) && m > 0
    ensures |r| == n
    ensures forall j, i :: 0 <= j < n && 0 <= i < m ==> r[j] <= N[i][j]
  {
    seq(n, j requires 0 <= j < n => MinOf(Column(N, j)))
  }

  /** Every column minimum is an entry of its column. */
  lemma ColumnMinimumAttained(N: seq<seq<real>>, m: nat, n: nat, j: nat)
    requires IsMatrix(N, m, n) && m > 0 && j < n
    ensures exists i :: 0 <= i < m && N[i][j] == ColumnMinima(N, m, n)[j]
  {
    var c := Column(N, j);
    var i :| 0 <= i < m && c[i] == MinOf(c);
    assert N[i][j] == ColumnMinima(N, m, n)[j];
  }

  /** The column minimum is the entry of the row the column is matched to. */
  lemma MinimaAtClosest(N: seq<seq<real>>, m: nat, n: nat, j: nat)
    requires IsMatrix(N, m, n) && m > 0 && j < n
    ensures ColumnMinima(N, m, n)[j] == N[ClosestIndices(N, m, n)[j]][j]
  {
    ArgMinAttainsMin(Column(N, j));
  }

  /** overall_distance_3d: the mean over catalogue points of the distance to the closest model point. */
  function GeometricScore(N: seq<seq<real>>, m: nat, n: nat): real
    requires IsMatrix(N, m, n) && m > 0 && n > 0
  {
    Mean(ColumnMinima(N, m, n))
  }

  /** With every entry in [0,1], the geometric score lies in [0,1]. */
  lemma GeometricScoreInUnitInterval(N: seq<seq<real>>, m: nat, n: nat)
    requires IsMatrix(N, m, n) && m > 0 && n > 0
    requires forall i, j :: 0 <= i < m && 0 <= j < n ==> 0.0 <= N[i][j] <= 1.0
    ensures 0.0 <= GeometricScore(N, m, n) <= 1.0
  {
    var mins := ColumnMinima(N, m, n);
    forall j | 0 <= j < n
      ensures 0.0 <= mins[j] <= 1.0
    {
      ColumnMinimumAttained(N, m, n, j);
      var i :| 0 <= i < m && N[i][j] == mins[j];
    }
    MeanInUnitInterval(mins);
  }
}
