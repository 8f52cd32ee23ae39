/** Interference mitigation by a forward sliding median: each index i of a
    series is replaced by the median of the slice that starts at i and holds
    at most w values. The window is not centred and is not padded: near the
    tail it shrinks to what is left of the series. */
module RfiFilter {
  import opened Medians

  /** The slice series[i : i + w] with Python's clamping at the end. */
  function Window(s: seq<real>, i: nat, w: nat): (r: seq<real>)
    requires i < |s| && w >= 1
    ensures 1 <= |r| <= w
    ensures r <= s[i..]
  {
    s[i..if i + w <= |s| then i + w else |s|]
  }

  /** The specification: every output index is the median of the ORIGINAL
      forward window starting there. */
  function Filtered(s: seq<real>, w: nat): (r: seq<real>)
    requires w >= 1
    ensures |r| == |s|
  {
    seq(|s|, i requires 0 <= i < |s| => Median(Window(s, i, w)))
  }

  /** The loop the source runs on its working copy: index i is overwritten
      with the median of the current a[i : i + w]. Because only index i is
      written and every later window starts after it, each window still holds
      original values, so the loop computes Filtered of the old contents. */
  method FilterInPlace(a: array<real>, w: nat)
    requires w >= 1
    modifies a
    ensures a[..] == Filtered(old(a[..]), w)
  {
    ghost var orig := a[..];
    ghost var spec := Filtered(orig, w);
    var i := 0;
    while i < a.Length
      invariant 0 <= i <= a.Length
      invariant forall j :: 0 <= j < i ==> a[j] == spec[j]
      invariant forall j :: i <= j < a.Length ==> a[j] == orig[j]
    {
      var hi := if i + w <= a.Length then i + w else a.Length;
      WindowUntouched(a[..], orig, i, w);
      a[i] := Median(a[i..hi]);
      i := i + 1;
    }
    assert a[..] == spec;
  }

  /** A series that still agrees with the original from i on holds the
      original window at i. */
  lemma WindowUntouched(cur: seq<real>, orig: seq<real>, i: nat, w: nat)
    requires |cur| == |orig| && i < |orig| && w >= 1
    requires forall j :: i <= j < |cur| ==> cur[j] == orig[j]
    ensures cur[i..if i + w <= |cur| then i + w else |cur|] == Window(orig, i, w)
  {
  }

  /** Time-domain mitigation: the filter runs on a fresh copy of the time
      series, which itself is left as it was. */
  method MitigateTimeDomain(power: array<real>, m: nat) returns (clean: array<real>)
    requires m >= 1
    ensures fresh(clean)
    ensures clean[..] == Filtered(power[..], m)
    ensures power[..] == old(power[..])
  {
    clean := new real[power.Length](k requires 0 <= k < power.Length reads power => power[k]);
    assert clean[..] == power[..];
    FilterInPlace(clean, m);
  }

  /** Frequency-domain mitigation: the filter runs on the noise-normalised
      spectrum that the SNR estimator returns for a copy of the calibrated
      spectrum; the estimator itself is a parameter here. The calibrated
      spectrum is left as it was. */
  method MitigateFrequencyDomain(spectrum: array<real>, snr: seq<real> -> seq<real>, n: nat)
    returns (clean: array<real>)
    requires n >= 1
    ensures fresh(clean)
    ensures clean[..] == Filtered(snr(spectrum[..]), n)
    ensures spectrum[..] == old(spectrum[..])
  {
    var normalised := snr(spectrum[..]);
    clean := new real[|normalised|](k requires 0 <= k < |normalised| => normalised[k]);
    assert clean[..] == normalised;
    FilterInPlace(clean, n);
  }

  /** With a window of one value the filter is the identity. */
  lemma FilterWidthOneIsIdentity(s: seq<real>)
    ensures Filtered(s, 1) == s
  {
    forall i | 0 <= i < |s|
      ensures Filtered(s, 1)[i] == s[i]
    {
      assert Window(s, i, 1) == [s[i]];
      MedianOfSingleton(s[i]);
    }
  }

  /** The last value keeps its value: its window holds it alone. */
  lemma FilterKeepsLast(s: seq<real>, w: nat)
    requires w >= 1 && |s| > 0
    ensures Filtered(s, w)[|s| - 1] == s[|s| - 1]
  {
    assert Window(s, |s| - 1, w) == [s[|s| - 1]];
    MedianOfSingleton(s[|s| - 1]);
  }

  /** Every filtered value lies between the least and the greatest value of
      its original window. */
  lemma FilterWithinWindow(s: seq<real>, w: nat, i: nat)
    requires w >= 1 && i < |s|
    ensures MinOf(Window(s, i, w)) <= Filtered(s, w)[i] <= MaxOf(Window(s, i, w))
  {
    MedianWithinRange(Window(s, i, w));
  }

  /** Once the window reaches the tail it is the whole remaining suffix: the
      value at i is the median of s[i..], not one value repeated everywhere. */
  lemma FilterAtTail(s: seq<real>, w: nat, i: nat)
    requires w >= 1 && i < |s| && |s| <= i + w
    ensures Filtered(s, w)[i] == Median(s[i..])
  {
    assert Window(s, i, w) == s[i..];
  }

  /** Away from the tail the window holds exactly w values. */
  lemma FilterAwayFromTail(s: seq<real>, w: nat, i: nat)
    requires w >= 1 && i + w <= |s|
    ensures |Window(s, i, w)| == w
    ensures Filtered(s, w)[i] == Median(s[i..i + w])
  {
  }

  /** A flat series passes through the filter unchanged. */
  lemma FilterKeepsFlatSeries(s: seq<real>, w: nat, v: real)
    requires w >= 1
    requires forall i :: 0 <= i < |s| ==> s[i] == v
    ensures Filtered(s, w) == s
  {
    forall i | 0 <= i < |s|
      ensures Filtered(s, w)[i] == s[i]
    {
      var win := Window(s, i, w);
      FilterWithinWindow(s, w, i);
      assert MinOf(win) == v && MaxOf(win) == v;
    }
  }

  /** A worked case of the forward window: [1, 5, 3] with w = 2 gives
      [median(1, 5), median(5, 3), median(3)] = [3, 4, 3]. */
  lemma ForwardWindowExample()
    ensures Filtered([1.0, 5.0, 3.0], 2) == [3.0, 4.0, 3.0]
  {
    var s := [1.0, 5.0, 3.0];
    assert Window(s, 0, 2) == [1.0, 5.0];
    assert Window(s, 1, 2) == [5.0, 3.0];
    assert Window(s, 2, 2) == [3.0];
    MedianOfPair(1.0, 5.0);
    MedianOfPair(5.0, 3.0);
    MedianOfSingleton(3.0);
  }
}
