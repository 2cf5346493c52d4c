/**
 * The k nearest model points of one catalogue point, chosen by brute force
 * from that point's column of the distance matrix, and the median of their
 * distances. Among equal distances the lower model index comes first.
 */
module Neighbours {

  predicate Ascending(s: seq<real>) {
    forall t, u :: 0 <= t < u < |s| ==> s[t] <= s[u]
  }

  /** Model point i is nearer than model point q: smaller distance, or equal distance and lower index. */
  predicate Closer(c: seq<real>, i: nat, q: nat)
    requires i < |c| && q < |c|
  {
    c[i] < c[q] || (c[i] == c[q] && i < q)
  }

  /** Closer is transitive. */
  lemma CloserTransitive(c: seq<real>, x: nat, y: nat, z: nat)
    requires x < |c| && y < |c| && z < |c| && Closer(c, x, y) && Closer(c, y, z)
    ensures Closer(c, x, z)
  {
  }

  predicate InRange(c: seq<real>, p: seq<nat>) {
    forall t :: 0 <= t < |p| ==> p[t] < |c|
  }

  /** p lists indices of c in strictly increasing Closer order (so without repeats). */
  predicate SortedByDistance(c: seq<real>, p: seq<nat>)
    requires InRange(c, p)
  {
    forall t, u :: 0 <= t < u < |p| ==> Closer(c, p[t], p[u])
  }

  /**
   * idx holds k distinct indices of c, nearest first, and every index left
   * out is farther than every index chosen.
   */
  predicate IsKNearest(c: seq<real>, k: nat, idx: seq<nat>) {
    |idx| == k && InRange(c, idx) && SortedByDistance(c, idx) &&
    forall t, i :: 0 <= t < k && 0 <= i < |c| && i !in idx ==> Closer(c, idx[t], i)
  }

  /** Inserts index x into the sorted list s at its place. */
  function InsertByDistance(c: seq<real>, x: nat, s: seq<nat>): (r: seq<nat>)
    requires x < |c| && InRange(c, s)
    ensures |r| == |s| + 1 && InRange(c, r)
    ensures forall y: nat :: y in r <==> y in s || y == x
    ensures SortedByDistance(c, s) && x !in s ==> SortedByDistance(c, r)
  {
    if s == [] then [x]
    else if Closer(c, x, s[0]) then [x] + s
    else
      var rest := InsertByDistance(c, x, s[1..]);
      assert SortedByDistance(c, s) && x !in s ==> forall u :: 0 <= u < |rest| ==> Closer(c, s[0], rest[u]) by {
        if SortedByDistance(c, s) && x !in s {
          forall u | 0 <= u < |rest|
            ensures Closer(c, s[0], rest[u])
          {
            assert rest[u] in rest;
            if rest[u] != x {
              var t :| 1 <= t < |s| && s[t] == rest[u];
            }
          }
        }
      }
      [s[0]] + rest
  }

  /** The indices 0 .. n-1 sorted nearest first. */
  function SortIndices(c: seq<real>, n: nat): (r: seq<nat>)
    requires n <= |c|
    ensures |r| == n && InRange(c, r)
    ensures forall y: nat :: y in r <==> y < n
    ensures SortedByDistance(c, r)
  {
    if n == 0 then []
    else
      var s := SortIndices(c, n - 1);
      var r := InsertByDistance(c, n - 1, s);
      r
  }

  /** The k nearest model indices for the distance column c. */
  function KNearest(c: seq<real>, k: nat): (idx: seq<nat>)
    requires k <= |c|
    ensures IsKNearest(c, k, idx)
  {
    var sorted := SortIndices(c, |c|);
    var idx := sorted[..k];
    assert forall t, i :: 0 <= t < k && 0 <= i < |c| && i !in idx ==> Closer(c, idx[t], i) by {
      forall t, i | 0 <= t < k && 0 <= i < |c| && i !in idx
        ensures Closer(c, idx[t], i)
      {
        assert i in sorted;
        var u :| 0 <= u < |c| && sorted[u] == i;
      }
    }
    idx
  }

  /** Two lists that both satisfy IsKNearest are equal: the choice is fully determined. */
  lemma {:induction false} KNearestUnique(c: seq<real>, k: nat, p: seq<nat>, q: seq<nat>)
    requires IsKNearest(c, k, p) && IsKNearest(c, k, q)
    ensures p == q
  {
    forall t | 0 <= t < k
      ensures p[t] == q[t]
    {
      KNearestAt(c, k, p, q, t);
    }
  }

  lemma {:induction false} KNearestAt(c: seq<real>, k: nat, p: seq<nat>, q: seq<nat>, t: nat)
    requires IsKNearest(c, k, p) && IsKNearest(c, k, q) && t < k
    ensures p[t] == q[t]
    decreases t
  {
    forall u | 0 <= u < t
      ensures p[u] == q[u]
    {
      KNearestAt(c, k, p, q, u);
    }
    NoNearerAt(c, k, p, q, t);
    NoNearerAt(c, k, q, p, t);
  }

  /** When p and q agree before position t, the index p has at t is not nearer than q's. */
  lemma NoNearerAt(c: seq<real>, k: nat, p: seq<nat>, q: seq<nat>, t: nat)
    requires IsKNearest(c, k, p) && IsKNearest(c, k, q) && t < k
    requires forall u :: 0 <= u < t ==> p[u] == q[u]
    ensures q[t] == p[t] || Closer(c, q[t], p[t])
  {
    if p[t] in q {
      var u :| 0 <= u < k && q[u] == p[t];
    }
  }

  /** The distances belonging to the chosen indices, in the same order. */
  function DistancesAt(c: seq<real>, idx: seq<nat>): (d: seq<real>)
    requires InRange(c, idx)
    ensures |d| == |idx| && forall t :: 0 <= t < |idx| ==> d[t] == c[idx[t]]
    ensures SortedByDistance(c, idx) ==> Ascending(d)
  {
    seq(|idx|, t requires 0 <= t < |idx| => c[idx[t]])
  }

  /**
   * np.median of distances already in ascending order: the middle value,
   * or the mean of the two middle values when there are evenly many.
   */
  function Median(s: seq<real>): (r: real)
    requires |s| > 0 && Ascending(s)
    ensures 2.0 * r == s[(|s| - 1) / 2] + s[|s| / 2]
    ensures forall t :: 0 <= t <= (|s| - 1) / 2 ==> s[t] <= r
    ensures forall t :: |s| / 2 <= t < |s| ==> r <= s[t]
  {
    var h := |s| / 2;
    if |s| % 2 == 1 then s[h] else (s[h - 1] + s[h]) / 2.0
  }
}
