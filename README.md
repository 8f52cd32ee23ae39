# Virgo core, modelled in Dafny

Virgo is a spectrometer and radiometer for small radio telescopes. `observe`
records a capture of float32 power samples from a software-defined radio. Next
to the capture it writes a small "header" sidecar of `key=value` lines. `plot`
can later read those parameters back from the sidecar. It then reshapes the
capture into a waterfall (sub-integrations × channels), averages it along
either axis, and can clean the time series and the calibrated spectrum of
radio-frequency interference with a forward sliding median.

This project models that core:

- `medians.dfy` (module `Medians`): sorting and the median as numpy computes
  it. For an odd count it is the middle order statistic. For an even count it
  is the mean of the two middle ones.
- `rfi.dfy` (module `RfiFilter`): the forward median filter. The specification function
  `Filtered` replaces index `i` by the median of `s[i : i + w]`, clamped at the
  end. `FilterInPlace` is the loop the code runs on an array. It is proved to
  compute `Filtered` of the original contents, even though it overwrites the
  array as it goes. The two mitigation branches run it on a fresh copy.
- `waterfall.dfy` (module `Waterfall`): `reshape(-1, channels)` with its error
  case, and division by the bin count. `Flatten` is the inverse of the
  reshape. The axis-0 mean gives the average spectrum and the axis-1 mean
  gives the time series; both have the overall mean of the waterfall.
- `header.dfy` (module `Header`): the sidecar path. It is the capture name
  with its last dot-separated piece replaced by `header`; a name without a
  dot gives `.header`.
  - The writer: the ten lines `observe` writes, joined by newlines.
  - The reader: `readlines`, then `rstrip('\n')` on each line. A loop then
    sends each line to the first of `mjd`, `frequency`, `bandwidth`,
    `channels` and `t_sample` that occurs in it, taking
    `strip().split('=')[1]` as the value.
  - The round trip is proved: the reader recovers the written values
    whenever they are well-formed (`Header.Writable`). No written value may
    hold a carriage return, a newline or one of the five key names. The five
    values the reader takes back may in addition hold no `=` and may not end
    in whitespace.
- `strings.dfy` (module `Strings`): the Python string operations all of this
  rests on: `split` with a one-character separator, `join`, the `in`
  substring test, `strip()`, `rstrip('\n')` and `readlines()`.
- `wrappers.dfy` (module `Wrappers`): `Option` and `Result`.

Samples are modelled as mathematical reals. Header values are kept as the
text `str()` produced, so the round trip is stated on text.

Two details of the code shape the model:
- At the tail, where the window runs past the end of the series, index `i`
  gets the median of the remaining suffix (`RfiFilter.FilterAtTail`).
- The reader takes the text between the first and the second `=` of the
  stripped line (`Header.FieldValue`).

## Model

| member | source | states |
|---|---|---|
| RfiFilter.Window | virgo/__init__.py:176 | the window at i is a prefix of the series from i on, holding between one and w values: it looks forward, not around i |
| RfiFilter.Filtered | virgo/__init__.py:175-176 | the filtered series has one value per input sample |
| RfiFilter.FilterInPlace | virgo/__init__.py:186-187 | after the loop, every index holds the median of the ORIGINAL forward window starting there, although earlier indices were overwritten in place |
| RfiFilter.MitigateTimeDomain | virgo/__init__.py:184-187 | the cleaned time series is a fresh array equal to the forward median filter of the time series; the time series itself is unchanged |
| RfiFilter.MitigateFrequencyDomain | virgo/__init__.py:173-176 | the cleaned spectrum is a fresh array equal to the forward median filter of the SNR-normalised spectrum; the calibrated spectrum is unchanged |
| RfiFilter.FilterWidthOneIsIdentity | virgo/__init__.py:186-187 | a window of one value leaves the series unchanged |
| RfiFilter.FilterKeepsLast | virgo/__init__.py:186-187 | the last value always survives the filter: its window holds only itself |
| RfiFilter.FilterWithinWindow | virgo/__init__.py:176 | every filtered value lies between the least and the greatest value of its original window |
| RfiFilter.FilterAtTail | virgo/__init__.py:187 | once the window runs past the end, the value at i is the median of the whole remaining suffix |
| RfiFilter.FilterAwayFromTail | virgo/__init__.py:187 | away from the tail the window holds exactly w values, starting at i (forward, not centred) |
| RfiFilter.FilterKeepsFlatSeries | virgo/__init__.py:186-187 | a constant series passes through the filter unchanged |
| RfiFilter.ForwardWindowExample | virgo/__init__.py:186-187 | [1, 5, 3] with a window of 2 becomes [3, 4, 3]: even windows average their two middle values, and the last window is truncated |
| Medians.Sort | virgo/__init__.py:176 | the ordering numpy's median uses: sorted, a permutation of the input, the same length |
| Medians.Median | virgo/__init__.py:176 | for an odd count the median is one of the window's values; for an even count it is the mean of two of them |
| Medians.MedianWithinRange | virgo/__init__.py:176 | the median lies between the minimum and the maximum of its window |
| Medians.MedianOfSingleton | virgo/__init__.py:176 | the median of one value is that value |
| Medians.MedianOfPair | virgo/__init__.py:176 | the median of two values is their mean |
| Medians.MedianIgnoresOrder | virgo/__init__.py:176 | the median depends only on the multiset of values in the window |
| Waterfall.Reshape | virgo/__init__.py:137 | reshape(-1, channels) fails exactly when channels is 0 or does not divide the sample count; on success there are count / channels rows of channels values each |
| Waterfall.Rows | virgo/__init__.py:137 | a capture whose length channels divides is cut into count / channels rows of channels values each |
| Waterfall.FlattenLength | virgo/__init__.py:137 | concatenating a rectangular waterfall gives rows × channels samples |
| Waterfall.ReshapeEntry | virgo/__init__.py:137 | entry (row, c) of the reshaped capture is sample row * channels + c (row-major order) |
| Waterfall.Load | virgo/__init__.py:137 | loading fails exactly when the reshape does, and keeps its shape |
| Waterfall.LoadEntry | virgo/__init__.py:137 | entry (row, c) of the loaded waterfall is sample row * channels + c divided by the bin count |
| Waterfall.FlattenOfRows | virgo/__init__.py:137 | concatenating the reshaped rows gives back the capture |
| Waterfall.RowsOfFlatten | virgo/__init__.py:137 | reshaping the concatenation of a rectangular waterfall gives back the waterfall |
| Waterfall.AverageSpectrum | virgo/__init__.py:142 | the mean over axis 0 has one value per channel |
| Waterfall.TimeSeries | virgo/__init__.py:146 | the mean over axis 1 has one value per sub-integration |
| Waterfall.TimeSeriesMean | virgo/__init__.py:146-149 | the mean of the time series is the mean of all samples of the waterfall |
| Waterfall.AverageSpectrumMean | virgo/__init__.py:142 | the mean of the average spectrum is the mean of all samples of the waterfall |
| Waterfall.FlatWaterfall | virgo/__init__.py:142-146 | a waterfall holding one value everywhere gives that value in every channel of the spectrum and every sample of the time series |
| Strings.Split | virgo/__init__.py:50 | split always yields at least one piece, and exactly one when the separator is absent |
| Strings.SplitPieces | virgo/__init__.py:118 | no piece of a split holds the separator |
| Strings.Join | virgo/__init__.py:50 | the joined text starts with the first piece |
| Strings.JoinSplit | virgo/__init__.py:50 | joining the pieces of a split with the same separator gives back the string |
| Strings.SplitAround | virgo/__init__.py:50 | splitting at a separator placed between a and b splits a and b apart |
| Strings.Contains | virgo/__init__.py:117-125 | a key occurs only in a text at least as long; the empty key occurs everywhere |
| Strings.ContainsAcross | virgo/__init__.py:117-125 | a key without the separator, absent from b, occurs in a + separator + b exactly when it occurs in a |
| Strings.StripLeft | virgo/__init__.py:118 | lstrip keeps a suffix that does not start with whitespace, and everything it drops is whitespace |
| Strings.StripRight | virgo/__init__.py:118 | rstrip keeps a prefix that does not end with whitespace, and everything it drops is whitespace |
| Strings.Strip | virgo/__init__.py:118 | strip keeps one contiguous slice of the text that neither starts nor ends with whitespace, and everything before and after that slice is whitespace |
| Strings.StripLeftPadded | virgo/__init__.py:118 | lstrip removes exactly a whitespace prefix in front of a text that does not start with whitespace |
| Strings.StripRightPadded | virgo/__init__.py:118 | rstrip removes exactly a whitespace suffix behind a text that does not end with whitespace |
| Strings.StripPadded | virgo/__init__.py:118 | strip of whitespace + t + whitespace gives back t when t is non-empty and neither starts nor ends with whitespace |
| Strings.StripUnchanged | virgo/__init__.py:118 | strip leaves a text alone when it neither starts nor ends with whitespace |
| Strings.TrimNewlines | virgo/__init__.py:114 | rstrip('\n') keeps a prefix of the line that does not end in a newline, and everything it drops is a newline |
| Strings.ReadLines | virgo/__init__.py:114 | readlines() yields no lines for an empty text, and otherwise only non-empty lines |
| Header.HeaderPath | virgo/__init__.py:50 | the sidecar path always ends in ".header" |
| Header.HeaderPathReplacesExtension | virgo/__init__.py:50 | the capture's last extension is replaced by "header"; earlier dots stay |
| Header.HeaderPathWithoutDot | virgo/__init__.py:109 | a capture name without a dot gives the path ".header" |
| Header.HeaderPathOfDefaultCapture | virgo/__init__.py:50 | the default capture "observation.dat" has its header at "observation.header" |
| Header.HeaderPathKeepsInnerDots | virgo/__init__.py:109 | "a.b.dat" has its header at "a.b.header": only the last extension is dropped |
| Header.WrittenLines | virgo/__init__.py:51-60 | observe writes ten lines |
| Header.HeaderText | virgo/__init__.py:50-60 | the sidecar text starts with the mjd line |
| Header.HeaderLines | virgo/__init__.py:113-114 | one entry per line readlines() yields, none of them ending in a newline |
| Header.HeaderLinesOfJoin | virgo/__init__.py:113-114 | reading back newline-joined lines, each with trailing newlines stripped, gives the lines, provided none holds a newline and the last is not empty |
| Header.Dispatch | virgo/__init__.py:117-125 | a line goes to a key that occurs in it, and to no key earlier in the if/elif order; it goes nowhere only when no key occurs |
| Header.Assign | virgo/__init__.py:117-126 | a branch sets its own variable and leaves the other four as they were |
| Header.FieldValue | virgo/__init__.py:118 | split('=')[1] raises exactly when the stripped line has no '='; otherwise the value holds no '=' |
| Header.FieldValueOf | virgo/__init__.py:118 | a line key=value, with the key starting with a non-blank and no '=' in key or value, and no trailing blank in the value, yields exactly the value |
| Header.Step | virgo/__init__.py:117-126 | one line fails exactly when it goes to a branch and split('=')[1] raises; otherwise every variable its branch does not own keeps its value |
| Header.Parse | virgo/__init__.py:116-126 | a variable once assigned stays assigned for the rest of the loop |
| Header.ReadLine | virgo/__init__.py:117-126 | one pass of the if/elif chain does what the line's dispatch says: the matched key's variable is reassigned from split('=')[1], an IndexError when the line has no '=', and no change when no key occurs |
| Header.ReadHeader | virgo/__init__.py:116-126 | the reader loop computes the line-by-line parse, stopping at the first line whose value cannot be split out |
| Header.ParseAppend | virgo/__init__.py:116-126 | reading one more line applies that line's branch to what was read so far |
| Header.ParseConcat | virgo/__init__.py:116-126 | reading a + b is reading a and then b from where a left off; an error in a ends the loop there |
| Header.OtherLinesKeep | virgo/__init__.py:116-126 | lines that go to other branches leave a variable as it was |
| Header.ReadOneMoreLine | virgo/__init__.py:116-126 | one more line that goes to k sets k to its value, and the other variables keep what earlier lines gave them |
| Header.LastMatchWins | virgo/__init__.py:116-126 | when a key occurs on several lines, the last line that goes to it decides its value, whatever lines for other keys follow |
| Header.RequireSettings | virgo/__init__.py:129-133 | the settings are available exactly when frequency, bandwidth, channels and t_sample were assigned; otherwise the error names an unassigned variable |
| Header.QuotedStaysInert | virgo/__init__.py:10 | quoting the device arguments adds no key name and no newline |
| Header.DispatchIgnoresValue | virgo/__init__.py:117-125 | a value free of key names does not change where its line goes |
| Header.ReadableLine | virgo/__init__.py:117-126 | a written line with a key the reader looks for goes to that key and yields the written value |
| Header.InertLine | virgo/__init__.py:52-55 | the dev_args, gain and duration lines go to no branch when their values hold no key name |
| Header.ParseWrittenLines | virgo/__init__.py:51-60 | reading the ten written lines assigns exactly the written mjd, frequency, bandwidth, channels and t_sample |
| Header.ReadLinesOfWrittenHeader | virgo/__init__.py:51-60 | reading the written sidecar text back line by line gives the ten written lines |
| Header.ReadBackWrittenHeader | virgo/__init__.py:50-60 | writer then reader round trip: the reader recovers the written mjd, frequency, bandwidth, channels and t_sample texts |

## Left out

- Radio capture (`run_observation`), `time.sleep`, `os.remove`, the clock and
  file I/O are not modelled. The capture is a sequence of samples, and the
  sidecar is its text.
- The MJD formula `epoch / 86400 + 40587` is not modelled: the MJD is taken
  as the text that was written.
- `float()` and `int()` parsing of the read values is not modelled, nor are
  the velocity axis edges, the bin count `int(t_sample * bandwidth /
  channels)`, the time axis, the frequency axis or the spectral-line mask.
  They are floating-point arithmetic. The model stops at the value texts, and
  `bins` is a parameter.
- The SNR estimator is not modelled, because it uses numpy standard
  deviation and NaN-aware mean. `MitigateFrequencyDomain` takes it as a
  function parameter.
- Also out of scope: calibration by division or decibels, `decibel`, the
  Gaussian `best_fit`, FITS and CSV output, plotting and the command-line
  interface.
- float32 rounding, NaN and infinity are not modelled: samples are reals.
  Hence:
  - `Load` requires a bin count of at least one, where numpy would divide by
    zero;
  - `AverageSpectrum` requires at least one sub-integration, where numpy
    gives NaN for an empty mean.
- RfiFilter.FilterInPlace: the loop runs over the whole array. The code
  bounds it by `int(channels)` or `int(subs)`, which equal the array length
  by construction.
- RfiFilter.MitigateTimeDomain, RfiFilter.MitigateFrequencyDomain,
  RfiFilter.FilterInPlace, RfiFilter.Filtered: the window size is a natural
  number of at least one. The code skips the filter when it is 0; a negative
  size from the command line, which Python slicing would treat differently,
  is not modelled.
- The branch where `plot` receives the parameters as a dictionary instead of
  reading the sidecar is not modelled: it only copies four values.
- Header.ReadLinesOfWrittenHeader: values are required to hold no carriage
  return, because Python's universal-newline reading is not modelled.
