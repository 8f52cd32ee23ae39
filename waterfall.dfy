/** The waterfall: a flat capture of power samples laid out row-major as
    sub-integrations by frequency channels, scaled by the bin count, and its
    two reductions, the average spectrum (one mean per channel) and the time
    series (one mean per sub-integration). */
module Waterfall {
  import opened Wrappers

  datatype LoadError =
    | ZeroChannels
    | SizeMismatch(samples: nat, channels: nat)

  predicate Rectangular(m: seq<seq<real>>, channels: nat) {
    forall r :: 0 <= r < |m| ==> |m[r]| == channels
  }

  lemma DivExact(n: nat, c: nat)
    requires c > 0 && n % c == 0
    ensures n == (n / c) * c
  {
  }

  lemma {:induction false} RowEnd(r: nat, subs: nat, c: nat)
    requires r < subs
    ensures 0 <= r * c && r * c + c <= subs * c
    decreases subs
  {
    if subs > r + 1 {
      RowEnd(r, subs - 1, c);
      assert subs * c == (subs - 1) * c + c;
    } else {
      assert subs * c == r * c + c;
    }
  }

  lemma MulDiv(q: nat, c: nat)
    requires c > 0
    ensures (q * c) % c == 0 && (q * c) / c == q
  {
    var n := q * c;
    var k := n / c - q;
    assert n == c * (n / c) + n % c;
    assert c * k == -(n % c);
  }

  lemma DivMod(j: nat, subs: nat, c: nat)
    requires c > 0 && j < subs * c
    ensures j / c < subs && j == (j / c) * c + j % c && j % c < c
  {
    assert j == c * (j / c) + j % c;
    if j / c >= subs {
      RowEnd(subs, j / c + 1, c);
    }
  }

  /** The row-major split of a flat sample sequence into rows of `channels`. */
  function Rows(flat: seq<real>, channels: nat): (m: seq<seq<real>>)
    requires channels > 0 && |flat| % channels == 0
    ensures |m| == |flat| / channels
    ensures forall r :: 0 <= r < |m| ==> |m[r]| == channels
  {
    DivExact(|flat|, channels);
    var subs := |flat| / channels;
    assert forall r :: 0 <= r < subs ==> 0 <= r * channels && r * channels + channels <= |flat| by {
      forall r | 0 <= r < subs
        ensures 0 <= r * channels && r * channels + channels <= |flat|
      {
        RowEnd(r, subs, channels);
      }
    }
    seq(subs, r requires 0 <= r < subs => flat[r * channels .. r * channels + channels])
  }
  /** Row r of the rows is the flat slice [r * channels, (r + 1) * channels). */
  lemma RowAt(flat: seq<real>, channels: nat, r: nat)
    requires channels > 0 && |flat| % channels == 0 && r < |flat| / channels
    ensures r * channels + channels <= |flat|
    ensures Rows(flat, channels)[r] == flat[r * channels .. r * channels + channels]
  {
    DivExact(|flat|, channels);
    RowEnd(r, |flat| / channels, channels);
  }

  /** Row r, column c of the rows is flat sample r * channels + c. */
  lemma EntryAt(flat: seq<real>, channels: nat, r: nat, c: nat)
    requires channels > 0 && |flat| % channels == 0 && r < |flat| / channels && c < channels
    ensures r * channels + c < |flat| && Rows(flat, channels)[r][c] == flat[r * channels + c]
  {
    RowAt(flat, channels, r);
  }

  /** numpy's reshape(-1, channels): fails unless `channels` divides the sample count. */
  function Reshape(flat: seq<real>, channels: nat): (r: Result<seq<seq<real>>, LoadError>)
    ensures r.Failure? <==> channels == 0 || |flat| % channels != 0
    ensures r.Success? ==> |r.value| == |flat| / channels && Rectangular(r.value, channels)
  {
    if channels == 0 then Failure(ZeroChannels)
    else if |flat| % channels != 0 then Failure(SizeMismatch(|flat|, channels))
    else Success(Rows(flat, channels))
  }

  /** Entry (row, c) of a reshaped capture is flat sample row * channels + c. */
  lemma ReshapeEntry(flat: seq<real>, channels: nat, row: nat, c: nat)
    requires Reshape(flat, channels).Success?
    requires row < |flat| / channels && c < channels
    ensures row * channels + c < |flat|
    ensures Reshape(flat, channels).value[row][c] == flat[row * channels + c]
  {
    EntryAt(flat, channels, row, c);
  }

  /** Loading: reshape, then divide every sample by the bin count. */
  function Load(flat: seq<real>, channels: nat, bins: nat): (r: Result<seq<seq<real>>, LoadError>)
    requires bins >= 1
    ensures r.Failure? <==> channels == 0 || |flat| % channels != 0
    ensures r.Success? ==> |r.value| == |flat| / channels && Rectangular(r.value, channels)
  {
    var m :- Reshape(flat, channels);
    Success(seq(|m|, row requires 0 <= row < |m| =>
      seq(|m[row]|, c requires 0 <= c < |m[row]| => m[row][c] / bins as real)))
  }

  /** Entry (row, c) of a loaded waterfall is flat sample row * channels + c
      divided by the bin count. */
  lemma LoadEntry(flat: seq<real>, channels: nat, bins: nat, row: nat, c: nat)
    requires bins >= 1 && Load(flat, channels, bins).Success?
    requires row < |flat| / channels && c < channels
    ensures row * channels + c < |flat|
    ensures Load(flat, channels, bins).value[row][c] == flat[row * channels + c] / bins as real
  {
    EntryAt(flat, channels, row, c);
  }

  /** Concatenation of the rows, the inverse of Rows. */
  function Flatten(m: seq<seq<real>>): seq<real> {
    if m == [] then [] else m[0] + Flatten(m[1..])
  }

  lemma {:induction false} FlattenLength(m: seq<seq<real>>, channels: nat)
    requires Rectangular(m, channels)
    ensures |Flatten(m)| == |m| * channels
  {
    if m != [] {
      FlattenLength(m[1..], channels);
    }
  }

  /** Flat index r * channels + c of a rectangular waterfall is entry (r, c). */
  lemma {:induction false} FlattenAt(m: seq<seq<real>>, channels: nat, r: nat, c: nat)
    requires Rectangular(m, channels) && r < |m| && c < channels
    ensures |Flatten(m)| == |m| * channels
    ensures r * channels + c < |Flatten(m)| && Flatten(m)[r * channels + c] == m[r][c]
  {
    FlattenLength(m, channels);
    RowEnd(r, |m|, channels);
    if r > 0 {
      FlattenAt(m[1..], channels, r - 1, c);
      assert r * channels + c == channels + ((r - 1) * channels + c);
    }
  }

  /** Flattening the reshaped rows gives back the capture. */
  lemma FlattenOfRows(flat: seq<real>, channels: nat)
    requires channels > 0 && |flat| % channels == 0
    ensures Flatten(Rows(flat, channels)) == flat
  {
    var m := Rows(flat, channels);
    var subs := |flat| / channels;
    DivExact(|flat|, channels);
    FlattenLength(m, channels);
    forall j | 0 <= j < |flat|
      ensures Flatten(m)[j] == flat[j]
    {
      DivMod(j, subs, channels);
      FlattenAt(m, channels, j / channels, j % channels);
      EntryAt(flat, channels, j / channels, j % channels);
    }
  }

  /** Reshaping the flattening of a rectangular waterfall gives it back. */
  lemma RowsOfFlatten(m: seq<seq<real>>, channels: nat)
    requires channels > 0 && Rectangular(m, channels)
    ensures |Flatten(m)| % channels == 0
    ensures Rows(Flatten(m), channels) == m
  {
    var f := Flatten(m);
    FlattenLength(m, channels);
    MulDiv(|m|, channels);
    var back := Rows(f, channels);
    forall r | 0 <= r < |m|
      ensures back[r] == m[r]
    {
      forall c | 0 <= c < channels
        ensures back[r][c] == m[r][c]
      {
        FlattenAt(m, channels, r, c);
        EntryAt(f, channels, r, c);
      }
    }
  }

  function Sum(s: seq<real>): real {
    if s == [] then 0.0 else s[0] + Sum(s[1..])
  }

  function Mean(s: seq<real>): real
    requires |s| > 0
  {
    Sum(s) / |s| as real
  }

  function Column(m: seq<seq<real>>, c: nat): (col: seq<real>)
    requires forall r :: 0 <= r < |m| ==> c < |m[r]|
    ensures |col| == |m|
  {
    seq(|m|, r requires 0 <= r < |m| => m[r][c])
  }

  /** numpy's mean over axis 0: one mean per frequency channel. */
  function AverageSpectrum(m: seq<seq<real>>, channels: nat): (r: seq<real>)
    requires |m| > 0 && Rectangular(m, channels)
    ensures |r| == channels
  {
    seq(channels, c requires 0 <= c < channels => Mean(Column(m, c)))
  }

  /** numpy's mean over axis 1: one mean per sub-integration. */
  function TimeSeries(m: seq<seq<real>>, channels: nat): (r: seq<real>)
    requires channels > 0 && Rectangular(m, channels)
    ensures |r| == |m|
  {
    seq(|m|, row requires 0 <= row < |m| => Mean(m[row]))
  }

  lemma {:induction false} SumConcat(a: seq<real>, b: seq<real>)
    ensures Sum(a + b) == Sum(a) + Sum(b)
  {
    if a == [] {
      assert a + b == b;
    } else {
      assert (a + b)[0] == a[0];
      assert (a + b)[1..] == a[1..] + b;
      SumConcat(a[1..], b);
    }
  }

  lemma {:induction false} SumScaled(s: seq<real>, t: seq<real>, k: real)
    requires k != 0.0 && |s| == |t|
    requires forall i :: 0 <= i < |s| ==> t[i] == s[i] / k
    ensures Sum(t) == Sum(s) / k
  {
    if s != [] {
      SumScaled(s[1..], t[1..], k);
    }
  }

  lemma {:induction false} SumPointwise(a: seq<real>, b: seq<real>, t: seq<real>)
    requires |a| == |b| == |t|
    requires forall i :: 0 <= i < |t| ==> t[i] == a[i] + b[i]
    ensures Sum(t) == Sum(a) + Sum(b)
  {
    if t != [] {
      SumPointwise(a[1..], b[1..], t[1..]);
    }
  }

  lemma {:induction false} SumConstant(s: seq<real>, v: real)
    requires forall i :: 0 <= i < |s| ==> s[i] == v
    ensures Sum(s) == |s| as real * v
  {
    if s != [] {
      SumConstant(s[1..], v);
    }
  }

  lemma DivDiv(x: real, a: real, b: real)
    requires a > 0.0 && b > 0.0
    ensures x / a / b == x / b / a == x / (a * b)
  {
  }

  lemma ProductAsReal(a: nat, b: nat)
    ensures (a * b) as real == a as real * b as real
  {
  }

  /** The row sums together add up to the whole waterfall. */
  lemma {:induction false} SumOfRowSums(m: seq<seq<real>>)
    ensures Sum(seq(|m|, r requires 0 <= r < |m| => Sum(m[r]))) == Sum(Flatten(m))
  {
    var rs := seq(|m|, r requires 0 <= r < |m| => Sum(m[r]));
    if m != [] {
      SumOfRowSums(m[1..]);
      assert rs[1..] == seq(|m[1..]|, r requires 0 <= r < |m[1..]| => Sum(m[1..][r]));
      SumConcat(m[0], Flatten(m[1..]));
    }
  }

  /** The column sums together add up to the whole waterfall. */
  lemma {:induction false} SumOfColumnSums(m: seq<seq<real>>, channels: nat)
    requires Rectangular(m, channels)
    ensures Sum(seq(channels, c requires 0 <= c < channels => Sum(Column(m, c)))) == Sum(Flatten(m))
  {
    var cs := seq(channels, c requires 0 <= c < channels => Sum(Column(m, c)));
    if m == [] {
      SumConstant(cs, 0.0);
    } else {
      var rest := m[1..];
      var csRest := seq(channels, c requires 0 <= c < channels => Sum(Column(rest, c)));
      SumOfColumnSums(rest, channels);
      forall c | 0 <= c < channels
        ensures cs[c] == m[0][c] + csRest[c]
      {
        assert Column(m, c)[1..] == Column(rest, c);
      }
      SumPointwise(m[0], csRest, cs);
      SumConcat(m[0], Flatten(rest));
    }
  }

  lemma MeanOfFlatten(m: seq<seq<real>>, channels: nat)
    requires |m| > 0 && channels > 0 && Rectangular(m, channels)
    ensures |Flatten(m)| > 0
    ensures Mean(Flatten(m)) == Sum(Flatten(m)) / (|m| as real * channels as real)
  {
    FlattenLength(m, channels);
    ProductAsReal(|m|, channels);
    var n := |Flatten(m)|;
    assert n as real == |m| as real * channels as real;
  }

  /** The time series has the overall mean of the waterfall: every sample
      is averaged once. */
  lemma TimeSeriesMean(m: seq<seq<real>>, channels: nat)
    requires |m| > 0 && channels > 0 && Rectangular(m, channels)
    ensures |Flatten(m)| > 0
    ensures Mean(TimeSeries(m, channels)) == Mean(Flatten(m))
  {
    var total := Sum(Flatten(m));
    var subs, ch := |m| as real, channels as real;
    MeanOfFlatten(m, channels);
    var ts := TimeSeries(m, channels);
    var rs := seq(|m|, r requires 0 <= r < |m| => Sum(m[r]));
    SumOfRowSums(m);
    SumScaled(rs, ts, ch);
    assert Mean(ts) == total / ch / subs;
    DivDiv(total, subs, ch);
    assert subs * ch == |m| as real * channels as real;
    assert Mean(Flatten(m)) == total / (subs * ch);
  }

  /** The average spectrum has the overall mean of the waterfall too. */
  lemma AverageSpectrumMean(m: seq<seq<real>>, channels: nat)
    requires |m| > 0 && channels > 0 && Rectangular(m, channels)
    ensures |Flatten(m)| > 0
    ensures Mean(AverageSpectrum(m, channels)) == Mean(Flatten(m))
  {
    var total := Sum(Flatten(m));
    var subs, ch := |m| as real, channels as real;
    var avg := AverageSpectrum(m, channels);
    var cs := seq(channels, c requires 0 <= c < channels => Sum(Column(m, c)));
    SumOfColumnSums(m, channels);
    SumScaled(cs, avg, subs);
    assert Mean(avg) == total / subs / ch;
    DivDiv(total, subs, ch);
    MeanOfFlatten(m, channels);
    assert subs * ch == |m| as real * channels as real;
  }

  /** A waterfall holding one value everywhere has that value in every entry
      of its average spectrum and of its time series. */
  lemma FlatWaterfall(m: seq<seq<real>>, channels: nat, v: real)
    requires |m| > 0 && channels > 0 && Rectangular(m, channels)
    requires forall r, c :: 0 <= r < |m| && 0 <= c < channels ==> m[r][c] == v
    ensures forall c :: 0 <= c < channels ==> AverageSpectrum(m, channels)[c] == v
    ensures forall r :: 0 <= r < |m| ==> TimeSeries(m, channels)[r] == v
  {
    forall c | 0 <= c < channels
      ensures AverageSpectrum(m, channels)[c] == v
    {
      SumConstant(Column(m, c), v);
    }
    forall r | 0 <= r < |m|
      ensures TimeSeries(m, channels)[r] == v
    {
      SumConstant(m[r], v);
    }
  }
}
