/**
 * Counter(labels).most_common(1)[0][0]: the label that occurs most often
 * among the neighbours' labels. A Counter keeps its keys in the order they
 * are first seen, and max() keeps the first of several equal counts, so a
 * tie goes to the label that appears first.
 */
module Vote {
  import opened Frames

  /** Number of occurrences of x in s. */
  function Count(s: seq<Label>, x: Label): (r: nat)
    ensures r == multiset(s)[x]
    ensures x !in s ==> r == 0
    ensures x in s ==> r >= 1
  {
    if s == [] then 0
    else
      assert s == s[..|s| - 1] + [s[|s| - 1]];
      Count(s[..|s| - 1], x) + (if s[|s| - 1] == x then 1 else 0)
  }

  /** Position of the first occurrence of x in s. */
  function FirstIndex(s: seq<Label>, x: Label): (r: nat)
    requires x in s
    ensures r < |s| && s[r] == x
    ensures forall t :: 0 <= t < r ==> s[t] != x
  {
    var init := s[..|s| - 1];
    if x in init then FirstIndex(init, x) else |s| - 1
  }

  /** Prefixes do not move first occurrences. */
  lemma FirstIndexOfPrefix(s: seq<Label>, x: Label)
    requires |s| > 0 && x in s[..|s| - 1]
    ensures FirstIndex(s[..|s| - 1], x) == FirstIndex(s, x)
  {
  }

  /** The Counter's keys: the distinct labels of s, in order of first occurrence. */
  function Keys(s: seq<Label>): (r: seq<Label>)
    ensures forall x :: x in r <==> x in s
    ensures forall t, u :: 0 <= t < u < |r| ==> FirstIndex(s, r[t]) < FirstIndex(s, r[u])
  {
    if s == [] then []
    else
      var init := s[..|s| - 1];
      var x := s[|s| - 1];
      var ks := Keys(init);
      assert forall t :: 0 <= t < |ks| ==> FirstIndex(init, ks[t]) == FirstIndex(s, ks[t]) by {
        forall t | 0 <= t < |ks| {
          FirstIndexOfPrefix(s, ks[t]);
        }
      }
      if x in init then ks else ks + [x]
  }

  /**
   * max(keys, key=count): the position of a key with the largest count, the
   * first such position when several tie.
   */
  function MaxByCount(ks: seq<Label>, s: seq<Label>): (k: nat)
    requires |ks| > 0
    ensures k < |ks|
    ensures forall t :: 0 <= t < |ks| ==> Count(s, ks[t]) <= Count(s, ks[k])
    ensures forall t :: 0 <= t < k ==> Count(s, ks[t]) < Count(s, ks[k])
  {
    if |ks| == 1 then 0
    else
      var k := MaxByCount(ks[..|ks| - 1], s);
      if Count(s, ks[|ks| - 1]) > Count(s, ks[k]) then |ks| - 1 else k
  }

  /**
   * The winning label occurs among the neighbours, no label occurs more
   * often, and of the labels that occur as often it is the first to appear.
   */
  function MostCommon(s: seq<Label>): (r: Label)
    requires |s| > 0
    ensures r in s
    ensures forall x :: Count(s, x) <= Count(s, r)
    ensures forall x :: x in s && Count(s, x) == Count(s, r) ==> FirstIndex(s, r) <= FirstIndex(s, x)
  {
    var ks := Keys(s);
    assert s[0] in ks;
    var k := MaxByCount(ks, s);
    FirstOfEqualCounts(s, ks, k);
    ks[k]
  }

  /** The first key of largest count appears, in s, no later than any label with that count. */
  lemma FirstOfEqualCounts(s: seq<Label>, ks: seq<Label>, k: nat)
    requires ks == Keys(s) && |ks| > 0 && k == MaxByCount(ks, s)
    ensures forall x :: x in s && Count(s, x) == Count(s, ks[k]) ==> FirstIndex(s, ks[k]) <= FirstIndex(s, x)
  {
    forall x | x in s && Count(s, x) == Count(s, ks[k])
      ensures FirstIndex(s, ks[k]) <= FirstIndex(s, x)
    {
      var t :| 0 <= t < |ks| && ks[t] == x;
      assert k <= t;
      if k < t {
        assert FirstIndex(s, ks[k]) < FirstIndex(s, ks[t]);
      }
    }
  }

  /** The three properties of MostCommon single out the label it returns. */
  lemma MostCommonUnique(s: seq<Label>, y: Label)
    requires |s| > 0 && y in s
    requires forall x :: Count(s, x) <= Count(s, y)
    requires forall x :: x in s && Count(s, x) == Count(s, y) ==> FirstIndex(s, y) <= FirstIndex(s, x)
    ensures y == MostCommon(s)
  {
    var r := MostCommon(s);
    assert Count(s, r) == Count(s, y);
    assert FirstIndex(s, r) == FirstIndex(s, y);
  }

  /** Two neighbours, one of each label: the tie goes to the nearer neighbour's label. */
  lemma TieGoesToFirstNeighbour()
    ensures MostCommon(["Far", "Near"]) == "Far"
  {
    var s := ["Far", "Near"];
    assert s[..1] == ["Far"];
    assert Count(s, "Far") == 1;
    assert Count(s, "Near") == 1;
    assert FirstIndex(s, "Far") == 0;
    MostCommonUnique(s, "Far");
  }
}
