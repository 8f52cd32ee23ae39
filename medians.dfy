/** Order statistics over real-valued series: sorting and the median as numpy
    computes it (middle element for an odd count, mean of the two middle
    order statistics for an even count). */
module Medians {

  predicate Sorted(s: seq<real>) {
    forall i, j :: 0 <= i < j < |s| ==> s[i] <= s[j]
  }

  /** Inserts x into a sorted sequence, keeping it sorted. */
  function Insert(x: real, s: seq<real>): (r: seq<real>)
    requires Sorted(s)
    ensures Sorted(r)
    ensures multiset(r) == multiset(s) + multiset{x}
    ensures |r| == |s| + 1
    ensures r[0] == x || (|s| > 0 && r[0] == s[0])
  {
    if s == [] || x <= s[0] then [x] + s
    else
      assert s == [s[0]] + s[1..];
      [s[0]] + Insert(x, s[1..])
  }

  /** The ascending rearrangement of a series. */
  function Sort(s: seq<real>): (r: seq<real>)
    ensures Sorted(r)
    ensures multiset(r) == multiset(s)
    ensures |r| == |s|
  {
    if s == [] then []
    else
      assert s == [s[0]] + s[1..];
      Insert(s[0], Sort(s[1..]))
  }

  /** The median of a non-empty window. */
  function Median(s: seq<real>): (m: real)
    requires |s| > 0
    ensures |s| % 2 == 1 ==> m in s
    ensures |s| % 2 == 0 ==> MeanOfTwoIn(s, m)
  {
    var t := Sort(s);
    var h := |t| / 2;
    assert t[h] in multiset(s) by { assert t[h] in multiset(t); }
    if |t| % 2 == 1 then t[h]
    else
      assert t[h - 1] in multiset(s) by { assert t[h - 1] in multiset(t); }
      assert t[h - 1] in s && t[h] in s;
      assert MeanOfTwoIn(s, (t[h - 1] + t[h]) / 2.0);
      (t[h - 1] + t[h]) / 2.0
  }

  /** m is the mean of two values found in s. */
  predicate MeanOfTwoIn(s: seq<real>, m: real) {
    exists x, y :: x in s && y in s && m == (x + y) / 2.0
  }

  function MinOf(s: seq<real>): (r: real)
    requires |s| > 0
    ensures r in s
    ensures forall i :: 0 <= i < |s| ==> r <= s[i]
  {
    if |s| == 1 then s[0]
    else
      var m := MinOf(s[1..]);
      assert forall i :: 1 <= i < |s| ==> s[i] == s[1..][i - 1];
      if s[0] <= m then s[0] else m
  }

  function MaxOf(s: seq<real>): (r: real)
    requires |s| > 0
    ensures r in s
    ensures forall i :: 0 <= i < |s| ==> s[i] <= r
  {
    if |s| == 1 then s[0]
    else
      var m := MaxOf(s[1..]);
      assert forall i :: 1 <= i < |s| ==> s[i] == s[1..][i - 1];
      if s[0] >= m then s[0] else m
  }

  /** Every element of the sorted rearrangement is an element of the series. */
  lemma SortedElementInRange(s: seq<real>, k: nat)
    requires k < |s|
    ensures MinOf(s) <= Sort(s)[k] <= MaxOf(s)
  {
    var t := Sort(s);
    assert t[k] in multiset(t);
    assert t[k] in multiset(s);
    var i :| 0 <= i < |s| && s[i] == t[k];
  }

  /** The mean of two values lies between any common bounds of theirs. */
  lemma MeanBetween(x: real, y: real, lo: real, hi: real)
    requires lo <= x <= hi && lo <= y <= hi
    ensures lo <= (x + y) / 2.0 <= hi
  {
  }

  /** The median lies between the smallest and the largest value of the window. */
  lemma MedianWithinRange(s: seq<real>)
    requires |s| > 0
    ensures MinOf(s) <= Median(s) <= MaxOf(s)
  {
    var t, h := Sort(s), |s| / 2;
    SortedElementInRange(s, h);
    if |s| % 2 == 1 {
      assert Median(s) == t[h];
    } else {
      SortedElementInRange(s, h - 1);
      MeanBetween(t[h - 1], t[h], MinOf(s), MaxOf(s));
      assert Median(s) == (t[h - 1] + t[h]) / 2.0;
    }
  }

  /** A window of one element has that element as its median. */
  lemma MedianOfSingleton(x: real)
    ensures Median([x]) == x
  {
    assert Sort([x]) == Insert(x, Sort([]));
  }

  /** An even-length window takes the mean of its two middle order statistics. */
  lemma MedianOfPair(a: real, b: real)
    ensures Median([a, b]) == (a + b) / 2.0
  {
    var t := Sort([a, b]);
    assert multiset(t) == multiset{a, b};
    assert t[0] in multiset(t) && t[1] in multiset(t);
    assert multiset{t[0], t[1]} == multiset(t) by { assert t == [t[0], t[1]]; }
  }

  /** Two sorted sequences holding the same values are equal. */
  lemma {:induction false} SortedUnique(a: seq<real>, b: seq<real>)
    requires Sorted(a) && Sorted(b)
    requires multiset(a) == multiset(b)
    ensures a == b
  {
    assert |a| == |multiset(a)| == |multiset(b)| == |b|;
    if |a| > 0 {
      assert a[0] in multiset(b);
      assert b[0] in multiset(a);
      assert a[0] == b[0];
      assert a == [a[0]] + a[1..];
      assert b == [b[0]] + b[1..];
      assert multiset(a) == multiset{a[0]} + multiset(a[1..]);
      assert multiset(b) == multiset{b[0]} + multiset(b[1..]);
      assert multiset(a[1..]) == multiset(a) - multiset{a[0]};
      assert multiset(b[1..]) == multiset(b) - multiset{b[0]};
      SortedUnique(a[1..], b[1..]);
    }
  }

  /** The median depends only on the values of the window, not on their order. */
  lemma MedianIgnoresOrder(s: seq<real>, t: seq<real>)
    requires |s| > 0
    requires multiset(s) == multiset(t)
    ensures |t| == |s|
    ensures Median(s) == Median(t)
  {
    assert |s| == |multiset(s)| == |multiset(t)| == |t|;
    SortedUnique(Sort(s), Sort(t));
  }
}
