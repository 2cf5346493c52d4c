/**
 * main's ranking: every model is analysed against the catalogue with
 * round(sqrt(model size)) neighbours, each result is given the model's
 * original table, and the results are sorted by combined score, highest
 * first. The sort is stable, so equal scores keep the models' order.
 */
module Ranking {
  import opened Frames
  import opened DistanceStage
  import opened Neighbours
  import opened Analyse

  /**
   * One entry of the models list: the scaled table, the original table, the
   * model's name, and the model-to-catalogue distance matrix of the scaled tables.
   */
  datatype ModelInput = ModelInput(data: seq<Row>, originalData: seq<Row>, name: string, distances: seq<seq<real>>)

  /** The distance matrix has a row per model point and a column per catalogue point. */
  predicate Fits(mi: ModelInput, catalogue: seq<Row>) {
    IsMatrix(mi.distances, |mi.data|, |catalogue|) && NonNegative(mi.distances)
  }

  predicate AllFit(models: seq<ModelInput>, catalogue: seq<Row>) {
    forall t :: 0 <= t < |models| ==> Fits(models[t], catalogue)
  }

  function Analysis(mi: ModelInput, catalogue: seq<Row>, k: int): (r: Result<ModelResult>)
    requires Fits(mi, catalogue)
  {
    AnalyseModel(mi.data, catalogue, mi.name, k, mi.distances)
  }

  /**
   * int(round(sqrt(m))): the integer nearest the square root of m. A square
   * root is never exactly halfway between two integers, so the rounding
   * mode does not matter.
   */
  function NeighbourCount(m: nat): (r: nat)
    ensures m == 0 ==> r == 0
    ensures m > 0 ==> (2 * r - 1) * (2 * r - 1) < 4 * m < (2 * r + 1) * (2 * r + 1)
  {
    var r := NeighbourCountFrom(m, 0);
    if m > 0 then NearestRoot(m, r); r else r
  }

  /** The least r' >= r with m <= r' * r' + r', when r is below it. */
  function NeighbourCountFrom(m: nat, r: nat): (res: nat)
    requires r == 0 || r * r - r < m
    ensures m <= res * res + res
    ensures res == 0 || res * res - res < m
    ensures m > 0 ==> res > 0
    decreases m - r
  {
    if m <= r * r + r then r
    else
      assert (r + 1) * (r + 1) - (r + 1) == r * r + r;
      NeighbourCountFrom(m, r + 1)
  }

  lemma NearestRoot(m: nat, r: nat)
    requires m > 0 && r > 0 && r * r - r < m <= r * r + r
    ensures (2 * r - 1) * (2 * r - 1) < 4 * m < (2 * r + 1) * (2 * r + 1)
  {
    assert (2 * r - 1) * (2 * r - 1) == 4 * (r * r - r) + 1;
    assert (2 * r + 1) * (2 * r + 1) == 4 * (r * r + r) + 1;
  }

  /** Only one r > 0 has r * r - r < m <= r * r + r, and NeighbourCount finds it. */
  lemma NeighbourCountUnique(m: nat, r: nat)
    requires r > 0 && r * r - r < m <= r * r + r
    ensures NeighbourCount(m) == r
  {
    CountFromFinds(m, 0, r);
  }

  lemma {:induction false} CountFromFinds(m: nat, s: nat, r: nat)
    requires r > 0 && r * r - r < m <= r * r + r && s <= r
    requires s == 0 || s * s - s < m
    ensures NeighbourCountFrom(m, s) == r
    decreases r - s
  {
    if s < r {
      StepBelow(s, r);
      assert (s + 1) * (s + 1) - (s + 1) == s * s + s;
      CountFromFinds(m, s + 1, r);
    }
  }

  /** Below r, s * s + s stays at most r * r - r. */
  lemma StepBelow(s: nat, r: nat)
    requires s < r
    ensures s * s + s <= r * r - r
  {
    var d := r - 1 - s;
    assert r * r - r == (s + 1 + d) * (s + d);
    assert (s + 1 + d) * (s + d) == s * s + s + d * (2 * s + 1 + d);
  }

  /** A model table of 300 points is compared with 17 neighbours. */
  lemma ThreeHundredPointsGiveSeventeen()
    ensures NeighbourCount(300) == 17
  {
    NeighbourCountUnique(300, 17);
  }

  /** The outcome of analyse_model_4d for every model, in model order. */
  function Outcomes(models: seq<ModelInput>, catalogue: seq<Row>, k: int): (r: seq<Result<ModelResult>>)
    requires AllFit(models, catalogue)
    ensures |r| == |models|
  {
    seq(|models|, t requires 0 <= t < |models| => Analysis(models[t], catalogue, k))
  }

  /**
   * The list comprehension of analyse_model_4d calls: the results in model
   * order, or the failure of the first model whose evaluation fails.
   */
  function AnalyseAll(models: seq<ModelInput>, catalogue: seq<Row>, k: int): (r: Result<seq<ModelResult>>)
    requires AllFit(models, catalogue)
    ensures r.Ok? ==>
      |r.value| == |models| && forall t :: 0 <= t < |models| ==> Analysis(models[t], catalogue, k) == Ok(r.value[t])
  {
    var outcomes := Outcomes(models, catalogue, k);
    assert forall t :: 0 <= t < |models| ==> outcomes[t] == Analysis(models[t], catalogue, k);
    Collect(outcomes)
  }

  /** A failed comprehension fails with the error of the first model whose analysis fails. */
  lemma FirstFailureStops(models: seq<ModelInput>, catalogue: seq<Row>, k: int)
    requires AllFit(models, catalogue) && AnalyseAll(models, catalogue, k).Err?
    ensures exists t: nat :: t < |models| && Analysis(models[t], catalogue, k) == Err(AnalyseAll(models, catalogue, k).error) &&
                             forall u :: 0 <= u < t ==> Analysis(models[u], catalogue, k).Ok?
  {
    var outcomes := Outcomes(models, catalogue, k);
    var t: nat :| t < |outcomes| && outcomes[t] == Err(AnalyseAll(models, catalogue, k).error) &&
                  forall u :: 0 <= u < t ==> outcomes[u].Ok?;
    assert outcomes[t] == Analysis(models[t], catalogue, k);
    forall u | 0 <= u < t
      ensures Analysis(models[u], catalogue, k).Ok?
    {
      assert outcomes[u] == Analysis(models[u], catalogue, k);
    }
  }

  /**
   * Evaluating the list in order and stopping at the first exception: all
   * values when every evaluation succeeds, else the first failure.
   */
  function Collect(outcomes: seq<Result<ModelResult>>): (r: Result<seq<ModelResult>>)
    ensures r.Ok? <==> forall t :: 0 <= t < |outcomes| ==> outcomes[t].Ok?
    ensures r.Ok? ==> |r.value| == |outcomes| && forall t :: 0 <= t < |outcomes| ==> outcomes[t] == Ok(r.value[t])
    ensures r.Err? ==> exists t: nat :: t < |outcomes| && outcomes[t] == Err(r.error) &&
                                        forall u :: 0 <= u < t ==> outcomes[u].Ok?
  {
    if outcomes == [] then Ok([])
    else
      match outcomes[0]
      case Err(e) => Err(e)
      case Ok(first) =>
        var rest := Collect(outcomes[1..]);
        if rest.Err? then
          var t: nat :| t < |outcomes| - 1 && outcomes[1..][t] == Err(rest.error) &&
                        forall u :: 0 <= u < t ==> outcomes[1..][u].Ok?;
          assert outcomes[t + 1] == Err(rest.error);
          assert forall u :: 1 <= u < t + 1 ==> outcomes[u] == outcomes[1..][u - 1];
          Err(rest.error)
        else
          var all := [first] + rest.value;
          assert forall t :: 1 <= t < |outcomes| ==> outcomes[t] == outcomes[1..][t - 1] && all[t] == rest.value[t - 1];
          Ok(all)
  }

  /** Every result of a successful comprehension meets the guarantees of AnalyseModel for its model. */
  lemma AnalysedResultsAcceptable(models: seq<ModelInput>, catalogue: seq<Row>, k: int, t: nat)
    requires AllFit(models, catalogue) && AnalyseAll(models, catalogue, k).Ok? && t < |models|
    ensures |AnalyseAll(models, catalogue, k).value| == |models|
    ensures var mi := models[t];
      IsAcceptableResult(AnalyseAll(models, catalogue, k).value[t], mi.data, catalogue, mi.name, mi.distances)
  {
    var outcomes := Outcomes(models, catalogue, k);
    assert outcomes[t] == Analysis(models[t], catalogue, k);
  }

  /** result['original_data'] = original_data for every result zipped with its model. */
  function Attached(results: seq<ModelResult>, models: seq<ModelInput>): (r: seq<ModelResult>)
    ensures |r| == |results|
    ensures forall t :: 0 <= t < |results| && t < |models| ==> r[t].originalData == Some(models[t].originalData)
    ensures forall t :: 0 <= t < |results| ==> r[t].(originalData := results[t].originalData) == results[t]
    ensures forall t :: |models| <= t < |results| ==> r[t] == results[t]
  {
    seq(|results|, t requires 0 <= t < |results| =>
      if t < |models| then results[t].(originalData := Some(models[t].originalData)) else results[t])
  }

  /** The loop over zip(results, models), updating each result in place. */
  method AttachOriginalData(results: array<ModelResult>, models: seq<ModelInput>)
    modifies results
    ensures results[..] == Attached(old(results[..]), models)
  {
    ghost var before := results[..];
    var count := if results.Length < |models| then results.Length else |models|;
    for t := 0 to count
      invariant forall u :: 0 <= u < t ==> results[u] == Attached(before, models)[u]
      invariant forall u :: t <= u < results.Length ==> results[u] == before[u]
    {
      results[t] := results[t].(originalData := Some(models[t].originalData));
    }
  }

  /** The sort keys, negated so that a higher score counts as nearer the front. */
  function NegatedScores(results: seq<ModelResult>): (c: seq<real>)
    ensures |c| == |results| && forall t :: 0 <= t < |results| ==> c[t] == -results[t].combinedScore
  {
    seq(|results|, t requires 0 <= t < |results| => -results[t].combinedScore)
  }

  /**
   * perm lists every position of results once, ordered by score from high to
   * low and, among equal scores, by position: the order that a stable sort
   * with reverse=True produces.
   */
  predicate IsStableOrder(perm: seq<nat>, results: seq<ModelResult>) {
    var c := NegatedScores(results);
    |perm| == |results| && InRange(c, perm) && SortedByDistance(c, perm) &&
    forall i: nat :: i < |results| ==> i in perm
  }

  /** ranked is results rearranged in the order perm. */
  predicate IsRankedBy(ranked: seq<ModelResult>, results: seq<ModelResult>, perm: seq<nat>) {
    IsStableOrder(perm, results) && |ranked| == |results| &&
    forall t :: 0 <= t < |ranked| ==> ranked[t] == results[perm[t]]
  }

  ghost predicate IsRanking(ranked: seq<ModelResult>, results: seq<ModelResult>) {
    exists perm :: IsRankedBy(ranked, results, perm)
  }

  /** There is only one stable order of a list of results. */
  lemma StableOrderUnique(p: seq<nat>, q: seq<nat>, results: seq<ModelResult>)
    requires IsStableOrder(p, results) && IsStableOrder(q, results)
    ensures p == q
  {
    var c := NegatedScores(results);
    KNearestUnique(c, |results|, p, q);
  }

  /** Hence the ranking of a list of results is fully determined. */
  lemma RankingUnique(r1: seq<ModelResult>, r2: seq<ModelResult>, results: seq<ModelResult>)
    requires IsRanking(r1, results) && IsRanking(r2, results)
    ensures r1 == r2
  {
    var p :| IsRankedBy(r1, results, p);
    var q :| IsRankedBy(r2, results, q);
    StableOrderUnique(p, q, results);
  }

  /** A ranking lists the scores from highest to lowest, and keeps the order of equal scores. */
  lemma RankingDescends(ranked: seq<ModelResult>, results: seq<ModelResult>, perm: seq<nat>)
    requires IsRankedBy(ranked, results, perm)
    ensures forall t, u :: 0 <= t < u < |ranked| ==> ranked[t].combinedScore >= ranked[u].combinedScore
    ensures forall t, u :: 0 <= t < u < |ranked| && ranked[t].combinedScore == ranked[u].combinedScore ==>
      perm[t] < perm[u]
  {
    var c := NegatedScores(results);
    forall t, u | 0 <= t < u < |ranked|
      ensures ranked[t].combinedScore >= ranked[u].combinedScore
      ensures ranked[t].combinedScore == ranked[u].combinedScore ==> perm[t] < perm[u]
    {
      assert Closer(c, perm[t], perm[u]);
    }
  }

  /**
   * One pass of the insertion sort on values: the entry at j moves towards
   * the front past every entry with a strictly lower score.
   */
  function Sink(s: seq<ModelResult>, j: nat): (r: seq<ModelResult>)
    requires j < |s|
    ensures |r| == |s|
    decreases j
  {
    if j > 0 && s[j - 1].combinedScore < s[j].combinedScore then Sink(s[j - 1 := s[j]][j := s[j - 1]], j - 1)
    else s
  }

  /** The first i passes of the insertion sort. */
  function InsertionSort(s: seq<ModelResult>, i: nat): (r: seq<ModelResult>)
    requires i <= |s|
    ensures |r| == |s|
  {
    if i == 0 then s else Sink(InsertionSort(s, i - 1), i - 1)
  }

  /** results.sort(key=combined_score, reverse=True) on the list in place. */
  method SortByCombinedScore(a: array<ModelResult>)
    modifies a
    ensures a[..] == InsertionSort(old(a[..]), a.Length)
  {
    ghost var orig := a[..];
    for i := 0 to a.Length
      invariant a[..] == InsertionSort(orig, i)
    {
      InsertLast(a, i);
    }
  }

  /** One pass: a[i] is swapped towards the front while its predecessor scores lower. */
  method InsertLast(a: array<ModelResult>, i: nat)
    modifies a
    requires i < a.Length
    ensures a[..] == Sink(old(a[..]), i)
  {
    var j := i;
    while j > 0 && a[j - 1].combinedScore < a[j].combinedScore
      invariant 0 <= j <= i && Sink(a[..], j) == Sink(old(a[..]), i)
      decreases j
    {
      Exchange(a, j - 1, j);
      j := j - 1;
    }
  }

  /** The insertion sort leaves the results in their stable order. */
  lemma InsertionSortRanks(s: seq<ModelResult>)
    ensures IsRanking(InsertionSort(s, |s|), s)
  {
    var perm := PassesKeep(s, |s|);
    Distinct(NegatedScores(s), perm);
    Pigeonhole(perm, |s|);
    assert IsRankedBy(InsertionSort(s, |s|), s, perm);
  }

  /** After i passes, the first i entries are in stable order and the rest are untouched. */
  lemma {:induction false} PassesKeep(s: seq<ModelResult>, i: nat) returns (perm: seq<nat>)
    requires i <= |s|
    ensures Tracks(InsertionSort(s, i), s, perm)
    ensures SortedPrefix(NegatedScores(s), perm, i) && Layout(perm, i)
  {
    if i == 0 {
      perm := Identity(|s|);
      IdentityTracks(s);
    } else {
      var p := PassesKeep(s, i - 1);
      InsertionStart(NegatedScores(s), p, i - 1);
      var t := InsertionSort(s, i - 1);
      assert InsertionSort(s, i) == Sink(t, i - 1);
      perm := SinkKeeps(t, s, p, i - 1, i - 1);
    }
  }

  /** Before the first pass every entry is where it started. */
  lemma IdentityTracks(s: seq<ModelResult>)
    ensures Tracks(s, s, Identity(|s|))
    ensures SortedPrefix(NegatedScores(s), Identity(|s|), 0) && Layout(Identity(|s|), 0)
  {
  }

  /** A pass that has brought entry i down to j finishes with the first i + 1 entries in stable order. */
  lemma {:induction false} SinkKeeps(t: seq<ModelResult>, orig: seq<ModelResult>, p: seq<nat>, i: nat, j: nat)
    returns (perm: seq<nat>)
    requires Tracks(t, orig, p) && Inserting(NegatedScores(orig), p, i, j)
    ensures Tracks(Sink(t, j), orig, perm)
    ensures SortedPrefix(NegatedScores(orig), perm, i + 1) && Layout(perm, i + 1)
    decreases j
  {
    if j > 0 && t[j - 1].combinedScore < t[j].combinedScore {
      var swapped := t[j - 1 := t[j]][j := t[j - 1]];
      assert Sink(t, j) == Sink(swapped, j - 1);
      SwapKeeps(t, orig, p, i, j);
      perm := SinkKeeps(swapped, orig, Swap(p, j - 1, j), i, j - 1);
    } else {
      StopKeeps(t, orig, p, i, j);
      perm := p;
    }
  }

  /** Swapping a[j] with a lower-scored a[j-1] keeps the insertion going. */
  lemma SwapKeeps(s: seq<ModelResult>, orig: seq<ModelResult>, perm: seq<nat>, i: nat, j: nat)
    requires Tracks(s, orig, perm) && Inserting(NegatedScores(orig), perm, i, j)
    requires 0 < j && s[j - 1].combinedScore < s[j].combinedScore
    ensures Tracks(s[j - 1 := s[j]][j := s[j - 1]], orig, Swap(perm, j - 1, j))
    ensures Inserting(NegatedScores(orig), Swap(perm, j - 1, j), i, j - 1)
  {
    SwapTracks(s, orig, perm, j - 1, j);
    SwapMovesForward(s, orig, perm, i, j);
  }

  lemma SwapMovesForward(s: seq<ModelResult>, orig: seq<ModelResult>, perm: seq<nat>, i: nat, j: nat)
    requires Tracks(s, orig, perm) && Inserting(NegatedScores(orig), perm, i, j)
    requires 0 < j && s[j - 1].combinedScore < s[j].combinedScore
    ensures Inserting(NegatedScores(orig), Swap(perm, j - 1, j), i, j - 1)
  {
    ScoresAt(s, orig, perm, j - 1);
    ScoresAt(s, orig, perm, j);
    SwapStep(NegatedScores(orig), perm, i, j);
  }

  /** When the inner loop stops, the first i + 1 entries are in stable order. */
  lemma StopKeeps(s: seq<ModelResult>, orig: seq<ModelResult>, perm: seq<nat>, i: nat, j: nat)
    requires Tracks(s, orig, perm) && Inserting(NegatedScores(orig), perm, i, j)
    requires j == 0 || s[j - 1].combinedScore >= s[j].combinedScore
    ensures Sink(s, j) == s && Tracks(Sink(s, j), orig, perm)
    ensures SortedPrefix(NegatedScores(orig), perm, i + 1) && Layout(perm, i + 1)
  {
    if j > 0 {
      ScoresAt(s, orig, perm, j - 1);
      ScoresAt(s, orig, perm, j);
    }
    InsertionEnd(NegatedScores(orig), perm, i, j);
  }

  /** s holds the entries of orig at the positions perm lists, and perm is a permutation of the positions. */
  predicate Tracks(s: seq<ModelResult>, orig: seq<ModelResult>, perm: seq<nat>) {
    |s| == |orig| && |perm| == |orig| && InRange(NegatedScores(orig), perm) &&
    (forall t :: 0 <= t < |s| ==> s[t] == orig[perm[t]])
  }

  lemma ScoresAt(s: seq<ModelResult>, orig: seq<ModelResult>, perm: seq<nat>, t: nat)
    requires Tracks(s, orig, perm) && t < |s|
    ensures NegatedScores(orig)[perm[t]] == -s[t].combinedScore
  {
  }

  /** a[x], a[y] = a[y], a[x] */
  method Exchange(a: array<ModelResult>, x: nat, y: nat)
    modifies a
    requires x < a.Length && y < a.Length
    ensures a[..] == old(a[..])[x := old(a[y])][y := old(a[x])]
  {
    a[x], a[y] := a[y], a[x];
  }

  /** Exchanging two entries and the two positions they came from keeps the record. */
  lemma SwapTracks(s: seq<ModelResult>, orig: seq<ModelResult>, perm: seq<nat>, x: nat, y: nat)
    requires Tracks(s, orig, perm) && x < |s| && y < |s|
    ensures Tracks(s[x := s[y]][y := s[x]], orig, Swap(perm, x, y))
  {
    var q := Swap(perm, x, y);
    var s' := s[x := s[y]][y := s[x]];
    forall t | 0 <= t < |s|
      ensures q[t] < |orig| && s'[t] == orig[q[t]]
    {
      if t == y {
      } else if t == x {
      } else {
      }
    }
  }

  function Identity(n: nat): (r: seq<nat>)
    ensures |r| == n && forall t :: 0 <= t < n ==> r[t] == t
  {
    seq(n, t requires 0 <= t < n => t)
  }

  /** p with the entries at x and y exchanged. */
  function Swap(p: seq<nat>, x: nat, y: nat): (r: seq<nat>)
    requires x < |p| && y < |p|
    ensures |r| == |p|
    ensures r[x] == p[y] && r[y] == p[x] && forall t :: 0 <= t < |p| && t != x && t != y ==> r[t] == p[t]
  {
    p[x := p[y]][y := p[x]]
  }

  /** The first i entries of p are in stable order. */
  predicate SortedPrefix(c: seq<real>, p: seq<nat>, i: nat)
    requires InRange(c, p)
  {
    i <= |p| && forall t, u :: 0 <= t < u < i ==> Closer(c, p[t], p[u])
  }

  /** The first i entries of p are positions below i, the rest are untouched. */
  predicate Layout(p: seq<nat>, i: nat) {
    i <= |p| && (forall t :: 0 <= t < i ==> p[t] < i) && forall t :: i <= t < |p| ==> p[t] == t
  }

  /**
   * Position i is being moved down and is now at j: the other entries up to
   * i are in stable order, and the moving one comes before everything after it.
   */
  predicate Inserting(c: seq<real>, p: seq<nat>, i: nat, j: nat)
    requires InRange(c, p)
  {
    j <= i < |p| && p[j] == i &&
    (forall t :: 0 <= t <= i && t != j ==> p[t] < i) &&
    (forall t :: i < t < |p| ==> p[t] == t) &&
    (forall t, u :: 0 <= t < u <= i && t != j && u != j ==> Closer(c, p[t], p[u])) &&
    (forall u :: j < u <= i ==> Closer(c, p[j], p[u]))
  }

  lemma InsertionStart(c: seq<real>, p: seq<nat>, i: nat)
    requires InRange(c, p) && i < |p| && SortedPrefix(c, p, i) && Layout(p, i)
    ensures Inserting(c, p, i, i)
  {
  }

  /** Moving a strictly higher score in front of its neighbour keeps the insertion going. */
  lemma SwapStep(c: seq<real>, p: seq<nat>, i: nat, j: nat)
    requires InRange(c, p) && Inserting(c, p, i, j) && 0 < j && c[p[j]] < c[p[j - 1]]
    ensures InRange(c, Swap(p, j - 1, j)) && Inserting(c, Swap(p, j - 1, j), i, j - 1)
  {
    var q := Swap(p, j - 1, j);
    assert InRange(c, q) by {
      forall t | 0 <= t < |q|
        ensures q[t] < |c|
      {
        if t == j - 1 {
          assert q[t] == p[j];
        } else if t == j {
          assert q[t] == p[j - 1];
        } else {
          assert q[t] == p[t];
        }
      }
    }
    forall t, u | 0 <= t < u <= i && t != j - 1 && u != j - 1
      ensures Closer(c, q[t], q[u])
    {
      if u == j {
        assert q[u] == p[j - 1] && q[t] == p[t];
      } else if t == j {
        assert q[t] == p[j - 1] && q[u] == p[u];
      } else {
        assert q[t] == p[t] && q[u] == p[u];
      }
    }
    forall u | j - 1 < u <= i
      ensures Closer(c, q[j - 1], q[u])
    {
      if u == j {
        assert q[u] == p[j - 1];
      } else {
        assert q[u] == p[u];
      }
    }
  }

  /** When the entry in front scores at least as high, the first i + 1 entries are in stable order. */
  lemma InsertionEnd(c: seq<real>, p: seq<nat>, i: nat, j: nat)
    requires InRange(c, p) && Inserting(c, p, i, j)
    requires j == 0 || c[p[j - 1]] <= c[p[j]]
    ensures SortedPrefix(c, p, i + 1) && Layout(p, i + 1)
  {
    forall t, u | 0 <= t < u <= i
      ensures Closer(c, p[t], p[u])
    {
      if u == j && t < j - 1 {
        CloserTransitive(c, p[t], p[j - 1], p[j]);
      }
    }
  }

  /** A list in strict stable order has no repeats. */
  lemma Distinct(c: seq<real>, p: seq<nat>)
    requires InRange(c, p) && SortedByDistance(c, p)
    ensures forall t, u :: 0 <= t < u < |p| ==> p[t] != p[u]
  {
    forall t, u | 0 <= t < u < |p|
      ensures p[t] != p[u]
    {
      assert Closer(c, p[t], p[u]);
    }
  }

  /** n distinct values below n: every value below n is among them. */
  lemma Pigeonhole(p: seq<nat>, n: nat)
    requires |p| == n && (forall t :: 0 <= t < n ==> p[t] < n)
    requires forall t, u :: 0 <= t < u < n ==> p[t] != p[u]
    ensures forall v: nat :: v < n ==> v in p
  {
    var ids := Identity(n);
    var image := set t | 0 <= t < n :: p[t];
    var below := set t | 0 <= t < n :: ids[t];
    ImageSize(p, n);
    ImageSize(ids, n);
    forall v: nat | v < n
      ensures v in p
    {
      if v !in p {
        forall x | x in image
          ensures x in below - {v}
        {
          var t :| 0 <= t < n && p[t] == x;
          assert ids[x] in below;
        }
        assert ids[v] in below;
        SubsetSize(image, below - {v});
      }
    }
  }

  lemma {:induction false} ImageSize(p: seq<nat>, k: nat)
    requires k <= |p| && forall t, u :: 0 <= t < u < |p| ==> p[t] != p[u]
    ensures |set t | 0 <= t < k :: p[t]| == k
  {
    if k > 0 {
      ImageSize(p, k - 1);
      var before := set t | 0 <= t < k - 1 :: p[t];
      assert (set t | 0 <= t < k :: p[t]) == before + {p[k - 1]};
      assert p[k - 1] !in before;
    }
  }

  lemma SubsetSize(a: set<nat>, b: set<nat>)
    requires a <= b
    ensures |a| <= |b|
  {
    assert b == a + (b - a);
    assert a * (b - a) == {};
  }

  /**
   * main's ranking: with no model there is no first model to size the
   * neighbour count by; otherwise the outcome is the first failure of the
   * analyses, if any, or every result with its original table attached, in
   * the one stable order from highest combined score to lowest.
   */
  method RankModels(models: seq<ModelInput>, catalogue: seq<Row>) returns (ranked: Result<seq<ModelResult>>)
    requires AllFit(models, catalogue)
    ensures |models| == 0 ==> ranked == Err(NoModels)
    ensures |models| > 0 ==>
      var all := AnalyseAll(models, catalogue, NeighbourCount(|models[0].data|));
      (ranked.Err? <==> all.Err?) &&
      (all.Err? ==> ranked.error == all.error) &&
      (all.Ok? ==> |ranked.value| == |models| && IsRanking(ranked.value, Attached(all.value, models)))
  {
    if |models| == 0 {
      return Err(NoModels);
    }
    var k := NeighbourCount(|models[0].data|);
    var all := AnalyseAll(models, catalogue, k);
    if all.Err? {
      return Err(all.error);
    }
    var sorted := AttachAndSort(all.value, models);
    ranked := Ok(sorted);
  }

  /** The attachment loop and the sort, on a list built from the results. */
  method AttachAndSort(results: seq<ModelResult>, models: seq<ModelInput>) returns (ranked: seq<ModelResult>)
    ensures |ranked| == |results| && IsRanking(ranked, Attached(results, models))
  {
    var a := new ModelResult[|results|](t requires 0 <= t < |results| => results[t]);
    assert a[..] == results;
    AttachOriginalData(a, models);
    ghost var attached := a[..];
    SortByCombinedScore(a);
    InsertionSortRanks(attached);
    ranked := a[..];
  }
}
