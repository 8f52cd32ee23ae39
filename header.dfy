/** The header sidecar of an observation: its path, derived from the capture
    file name; the key=value text that observe writes; and the loop in plot
    that reads it back when no parameters are passed in. Values are kept as
    the text that str() produced, so no number is parsed here. */
module Header {
  import opened Wrappers
  import opened Strings

  /** '.'.join(obs_file.split('.')[:-1]) + '.header': the capture name with its
      last '.'-separated piece dropped. The writer and the reader evaluate this
      same expression. */
  function HeaderPath(obsFile: string): (p: string)
    ensures |p| >= 7 && p[|p| - 7..] == ".header"
  {
    var parts := Split(obsFile, '.');
    Join(parts[..|parts| - 1], '.') + ".header"
  }

  /** The extension after the last dot is replaced by "header"; earlier dots stay. */
  lemma HeaderPathReplacesExtension(stem: string, ext: string)
    requires '.' !in ext
    ensures HeaderPath(stem + "." + ext) == stem + ".header"
  {
    var name := stem + "." + ext;
    assert name == stem + ['.'] + ext;
    SplitAround(stem, '.', ext);
    var parts := Split(name, '.');
    assert parts == Split(stem, '.') + [ext];
    assert parts[..|parts| - 1] == Split(stem, '.');
    JoinSplit(stem, '.');
  }

  /** The same, for a name already known to be stem.ext. */
  lemma HeaderPathOf(name: string, stem: string, ext: string)
    requires name == stem + "." + ext && '.' !in ext
    ensures HeaderPath(name) == stem + ".header"
  {
    HeaderPathReplacesExtension(stem, ext);
  }

  /** A name without a dot loses all of itself: the path is just ".header". */
  lemma HeaderPathWithoutDot(obsFile: string)
    requires '.' !in obsFile
    ensures HeaderPath(obsFile) == ".header"
  {
  }

  /** The default capture "observation.dat" has its header at "observation.header". */
  lemma HeaderPathOfDefaultCapture()
    ensures HeaderPath("observation.dat") == "observation.header"
  {
    assert "observation.dat" == "observation" + "." + "dat";
    assert "observation" + ".header" == "observation.header";
    HeaderPathOf("observation.dat", "observation", "dat");
  }

  /** Only the last extension goes: "a.b.dat" has its header at "a.b.header". */
  lemma HeaderPathKeepsInnerDots()
    ensures HeaderPath("a.b.dat") == "a.b.header"
  {
    assert "a.b.dat" == "a.b" + "." + "dat";
    assert "a.b" + ".header" == "a.b.header";
    HeaderPathOf("a.b.dat", "a.b", "dat");
  }

  /** Observation parameters as observe receives them, each as its str() text. */
  datatype ObsParameters = ObsParameters(
    devArgs: string, rfGain: string, ifGain: string, bbGain: string,
    frequency: string, bandwidth: string, channels: string, tSample: string,
    duration: string)

  /** observe wraps the device arguments in double quotes before using them. */
  function Quoted(s: string): string {
    "\"" + s + "\""
  }

  /** One written line: the key, '=' and the str() text of the value, as
      observe concatenates them. */
  function Line(key: string, value: string): string {
    key + "=" + value
  }

  /** The ten lines observe writes, in order. */
  function WrittenLines(p: ObsParameters, mjd: string): (r: seq<string>)
    ensures |r| == 10
  {
    [ Line("mjd", mjd),
      Line("dev_args", Quoted(p.devArgs)),
      Line("rf_gain", p.rfGain),
      Line("if_gain", p.ifGain),
      Line("bb_gain", p.bbGain),
      Line("frequency", p.frequency),
      Line("bandwidth", p.bandwidth),
      Line("channels", p.channels),
      Line("t_sample", p.tSample),
      Line("duration", p.duration) ]
  }

  /** The text of the sidecar: the lines separated by newlines, no newline at the end. */
  function HeaderText(p: ObsParameters, mjd: string): (r: string)
    ensures Line("mjd", mjd) <= r
  {
    Join(WrittenLines(p, mjd), '\n')
  }

  /** The list that plot builds from the file: readlines(), each line with
      its trailing newline removed. */
  function HeaderLines(text: string): (r: seq<string>)
    ensures |r| == |ReadLines(text)|
    ensures forall j :: 0 <= j < |r| ==> r[j] == [] || r[j][|r[j]| - 1] != '\n'
  {
    var raw := ReadLines(text);
    seq(|raw|, i requires 0 <= i < |raw| => TrimNewlines(raw[i]))
  }

  /** Reading back newline-joined lines gives those lines, provided none holds
      a newline and the last is not empty. */
  lemma {:induction false} HeaderLinesOfJoin(lines: seq<string>)
    requires |lines| >= 1 && lines[|lines| - 1] != []
    requires forall i :: 0 <= i < |lines| ==> '\n' !in lines[i]
    ensures HeaderLines(Join(lines, '\n')) == lines
  {
    var l := lines[0];
    if |lines| == 1 {
      assert ReadLines(l) == [l];
    } else {
      var rest := lines[1..];
      assert forall i :: 0 <= i < |rest| ==> rest[i] == lines[i + 1];
      HeaderLinesOfJoin(rest);
      var tail := Join(rest, '\n');
      assert lines == [l] + rest;
      JoinCons(l, rest, '\n');
      ReadLinesCons(l, tail);
      TrimNewlinesOfLine(l);
      HeaderLinesCons(Join(lines, '\n'), l + ['\n'], tail);
    }
  }

  /** Trimming works line by line, so it commutes with taking the first line off. */
  lemma HeaderLinesCons(text: string, first: string, tail: string)
    requires ReadLines(text) == [first] + ReadLines(tail)
    ensures HeaderLines(text) == [TrimNewlines(first)] + HeaderLines(tail)
  {
    var raw, rest := ReadLines(text), ReadLines(tail);
    var got, want := HeaderLines(text), [TrimNewlines(first)] + HeaderLines(tail);
    assert |got| == |want|;
    forall j | 0 <= j < |got|
      ensures got[j] == want[j]
    {
      assert got[j] == TrimNewlines(raw[j]);
      if j > 0 {
        assert raw[j] == rest[j - 1];
        assert want[j] == HeaderLines(tail)[j - 1] == TrimNewlines(rest[j - 1]);
      }
    }
  }

  /** The keys the reader looks for, in the order it tests them. */
  datatype Key = Mjd | Frequency | Bandwidth | Channels | TSample

  function KeyName(k: Key): string {
    match k
    case Mjd => "mjd"
    case Frequency => "frequency"
    case Bandwidth => "bandwidth"
    case Channels => "channels"
    case TSample => "t_sample"
  }

  function Rank(k: Key): nat {
    match k
    case Mjd => 0
    case Frequency => 1
    case Bandwidth => 2
    case Channels => 3
    case TSample => 4
  }

  /** The branch of the if/elif chain a line takes: the first key, in the
      reader's order, whose name occurs anywhere in the line. */
  function Dispatch(line: string): (r: Option<Key>)
    ensures r.Some? ==> Contains(line, KeyName(r.value))
    ensures r.Some? ==> forall k :: Rank(k) < Rank(r.value) ==> !Contains(line, KeyName(k))
    ensures r.None? ==> forall k :: !Contains(line, KeyName(k))
  {
    if Contains(line, "mjd") then Some(Mjd)
    else if Contains(line, "frequency") then Some(Frequency)
    else if Contains(line, "bandwidth") then Some(Bandwidth)
    else if Contains(line, "channels") then Some(Channels)
    else if Contains(line, "t_sample") then Some(TSample)
    else None
  }

  /** What the reader has assigned so far; None for a variable never assigned. */
  datatype HeaderFields = HeaderFields(
    mjd: Option<string>, frequency: Option<string>, bandwidth: Option<string>,
    channels: Option<string>, tSample: Option<string>)

  const Unassigned := HeaderFields(None, None, None, None, None)

  function Field(f: HeaderFields, k: Key): Option<string> {
    match k
    case Mjd => f.mjd
    case Frequency => f.frequency
    case Bandwidth => f.bandwidth
    case Channels => f.channels
    case TSample => f.tSample
  }

  function Assign(f: HeaderFields, k: Key, v: string): (g: HeaderFields)
    ensures Field(g, k) == Some(v)
    ensures forall k' :: k' != k ==> Field(g, k') == Field(f, k')
  {
    match k
    case Mjd => f.(mjd := Some(v))
    case Frequency => f.(frequency := Some(v))
    case Bandwidth => f.(bandwidth := Some(v))
    case Channels => f.(channels := Some(v))
    case TSample => f.(tSample := Some(v))
  }

  datatype HeaderError =
    | NoValue(line: string)   // split('=')[1] raised IndexError
    | MissingKey(key: Key)    // a variable the header never assigned (NameError)

  /** line.strip().split('=')[1]: the text between the first and the second
      '=' of the stripped line; an IndexError when there is no '='. */
  function FieldValue(line: string): (r: Result<string, HeaderError>)
    ensures r.Failure? <==> '=' !in Strip(line)
    ensures r.Success? ==> '=' !in r.value
  {
    var parts := Split(Strip(line), '=');
    SplitPieces(Strip(line), '=');
    if |parts| < 2 then Failure(NoValue(line)) else Success(parts[1])
  }

  /** A line "key=value" whose key starts with a non-blank and has no '=',
      and whose value has no '=' and no trailing blank, yields the value. */
  lemma FieldValueOf(key: string, v: string)
    requires |key| > 0 && !IsSpace(key[0]) && '=' !in key
    requires '=' !in v && (v == [] || !IsSpace(v[|v| - 1]))
    ensures FieldValue(key + "=" + v) == Success(v)
  {
    var line := key + "=" + v;
    assert line == key + ['='] + v;
    StripUnchanged(line);
    SplitAround(key, '=', v);
  }

  /** One pass of the loop body. */
  function Step(f: HeaderFields, line: string): (r: Result<HeaderFields, HeaderError>)
    ensures r.Failure? <==> Dispatch(line).Some? && FieldValue(line).Failure?
    ensures r.Success? ==> forall k :: Dispatch(line) != Some(k) ==> Field(r.value, k) == Field(f, k)
  {
    match Dispatch(line)
    case None => Success(f)
    case Some(k) =>
      var v :- FieldValue(line);
      Success(Assign(f, k, v))
  }

  /** The whole loop, from the given assignments, stopping at the first error. */
  function Parse(headers: seq<string>, f: HeaderFields): (r: Result<HeaderFields, HeaderError>)
    ensures r.Success? ==> forall k :: Field(f, k).Some? ==> Field(r.value, k).Some?
    decreases |headers|
  {
    if headers == [] then Success(f)
    else
      match Step(f, headers[0])
      case Failure(e) => Failure(e)
      case Success(g) => Parse(headers[1..], g)
  }

  /** One pass of the reader loop's body: the if/elif chain on the key
      substrings, each branch reassigning its variable from split('=')[1].
      This is the chain as the code writes it, proved equal to Step, which
      states the same choice through Dispatch. Keeping it a method of its
      own lets ReadHeader's loop rely on the single fact r == Step(f, line)
      rather than reasoning about five branches in every iteration. */
  method ReadLine(f: HeaderFields, line: string) returns (r: Result<HeaderFields, HeaderError>)
    ensures r == Step(f, line)
  {
    if Contains(line, "mjd") {
      var value :- FieldValue(line);
      r := Success(f.(mjd := Some(value)));
    } else if Contains(line, "frequency") {
      var value :- FieldValue(line);
      r := Success(f.(frequency := Some(value)));
    } else if Contains(line, "bandwidth") {
      var value :- FieldValue(line);
      r := Success(f.(bandwidth := Some(value)));
    } else if Contains(line, "channels") {
      var value :- FieldValue(line);
      r := Success(f.(channels := Some(value)));
    } else if Contains(line, "t_sample") {
      var value :- FieldValue(line);
      r := Success(f.(tSample := Some(value)));
    } else {
      r := Success(f);
    }
  }

  /** Reading from line i on: line i, then the lines after it. */
  lemma ParseFrom(headers: seq<string>, i: nat, f: HeaderFields)
    requires i < |headers|
    ensures Step(f, headers[i]).Failure? ==> Parse(headers[i..], f) == Failure(Step(f, headers[i]).error)
    ensures Step(f, headers[i]).Success? ==> Parse(headers[i..], f) == Parse(headers[i + 1..], Step(f, headers[i]).value)
  {
    assert headers[i..][1..] == headers[i + 1..];
  }

  /** The reader loop of plot: each line goes to the first branch whose key
      it contains; the first line whose value cannot be split out ends it. */
  method ReadHeader(headers: seq<string>) returns (r: Result<HeaderFields, HeaderError>)
    ensures r == Parse(headers, Unassigned)
  {
    var fields := Unassigned;
    var i := 0;
    while i < |headers|
      invariant 0 <= i <= |headers|
      invariant Parse(headers, Unassigned) == Parse(headers[i..], fields)
    {
      ParseFrom(headers, i, fields);
      var next := ReadLine(fields, headers[i]);
      if next.Failure? {
        return Failure(next.error);
      }
      fields := next.value;
      i := i + 1;
    }
    return Success(fields);
  }

  lemma {:induction false} ParseAppend(headers: seq<string>, line: string, f: HeaderFields)
    ensures Parse(headers + [line], f) ==
              match Parse(headers, f)
              case Failure(e) => Failure(e)
              case Success(g) => Step(g, line)
    decreases |headers|
  {
    if headers == [] {
      assert [] + [line] == [line];
      assert [line][1..] == [];
    } else {
      assert (headers + [line])[0] == headers[0];
      assert (headers + [line])[1..] == headers[1..] + [line];
      match Step(f, headers[0])
      case Failure(e) =>
      case Success(g) => ParseAppend(headers[1..], line, g);
    }
  }

  /** A matching line read after the others sets its variable; the other
      variables keep what the earlier lines gave them. */
  lemma ReadOneMoreLine(headers: seq<string>, line: string, k: Key, v: string)
    requires Parse(headers, Unassigned).Success?
    requires Dispatch(line) == Some(k) && FieldValue(line) == Success(v)
    ensures Parse(headers + [line], Unassigned).Success?
    ensures Field(Parse(headers + [line], Unassigned).value, k) == Some(v)
    ensures forall k' :: k' != k ==>
              Field(Parse(headers + [line], Unassigned).value, k') == Field(Parse(headers, Unassigned).value, k')
  {
    ParseAppend(headers, line, Unassigned);
  }

  /** Reading a + b reads a, then b from where a left off; an error in a ends it. */
  lemma {:induction false} ParseConcat(a: seq<string>, b: seq<string>, f: HeaderFields)
    ensures Parse(a, f).Failure? ==> Parse(a + b, f) == Parse(a, f)
    ensures Parse(a, f).Success? ==> Parse(a + b, f) == Parse(b, Parse(a, f).value)
    decreases |a|
  {
    if a == [] {
      assert a + b == b;
    } else {
      assert (a + b)[0] == a[0];
      assert (a + b)[1..] == a[1..] + b;
      match Step(f, a[0])
      case Failure(e) =>
      case Success(g) => ParseConcat(a[1..], b, g);
    }
  }

  /** Lines that go to other branches leave variable k alone. */
  lemma {:induction false} OtherLinesKeep(rest: seq<string>, f: HeaderFields, k: Key)
    requires forall j :: 0 <= j < |rest| ==> Dispatch(rest[j]) != Some(k)
    requires Parse(rest, f).Success?
    ensures Field(Parse(rest, f).value, k) == Field(f, k)
    decreases |rest|
  {
    if rest != [] {
      var g := Step(f, rest[0]).value;
      assert Field(g, k) == Field(f, k);
      assert forall j :: 0 <= j < |rest[1..]| ==> rest[1..][j] == rest[j + 1];
      OtherLinesKeep(rest[1..], g, k);
    }
  }

  /** When a key occurs on several lines, the last line that goes to it
      decides its value, whatever lines for other keys follow. */
  lemma LastMatchWins(headers: seq<string>, line: string, rest: seq<string>, k: Key, v: string)
    requires Dispatch(line) == Some(k) && FieldValue(line) == Success(v)
    requires forall j :: 0 <= j < |rest| ==> Dispatch(rest[j]) != Some(k)
    requires Parse(headers + [line] + rest, Unassigned).Success?
    ensures Field(Parse(headers + [line] + rest, Unassigned).value, k) == Some(v)
  {
    var upTo := headers + [line];
    ParseConcat(upTo, rest, Unassigned);
    ParseConcat(headers, [line], Unassigned);
    ParseAppend(headers, line, Unassigned);
    OtherLinesKeep(rest, Parse(upTo, Unassigned).value, k);
  }

  /** The settings that plot goes on to use (lines 129-133). */
  datatype Settings = Settings(frequency: string, bandwidth: string, channels: string, tSample: string)

  /** A variable the header never assigned raises NameError at its first use:
      bandwidth and frequency on the velocity-edge line, then t_sample and
      channels on the bin-count line. */
  function RequireSettings(f: HeaderFields): (r: Result<Settings, HeaderError>)
    ensures r.Success? <==>
              f.frequency.Some? && f.bandwidth.Some? && f.channels.Some? && f.tSample.Some?
    ensures r.Success? ==>
              Some(r.value.frequency) == f.frequency && Some(r.value.bandwidth) == f.bandwidth &&
              Some(r.value.channels) == f.channels && Some(r.value.tSample) == f.tSample
    ensures r.Failure? ==> r.error.MissingKey? && Field(f, r.error.key) == None
  {
    if f.bandwidth.None? then Failure(MissingKey(Bandwidth))
    else if f.frequency.None? then Failure(MissingKey(Frequency))
    else if f.tSample.None? then Failure(MissingKey(TSample))
    else if f.channels.None? then Failure(MissingKey(Channels))
    else Success(Settings(f.frequency.value, f.bandwidth.value, f.channels.value, f.tSample.value))
  }

  /** No key name occurs in v. */
  predicate NoKeyIn(v: string) {
    forall k :: !Contains(v, KeyName(k))
  }

  /** A written value that stays on its line and triggers no branch. */
  predicate Inert(v: string) {
    '\n' !in v && '\r' !in v && NoKeyIn(v)
  }

  /** A value the reader can take back verbatim. */
  predicate Recoverable(v: string) {
    Inert(v) && '=' !in v && (v == [] || !IsSpace(v[|v| - 1]))
  }

  /** What the round trip needs of the written values. */
  predicate Writable(p: ObsParameters, mjd: string) {
    Recoverable(mjd) && Recoverable(p.frequency) && Recoverable(p.bandwidth) &&
    Recoverable(p.channels) && Recoverable(p.tSample) &&
    Inert(p.devArgs) && Inert(p.rfGain) && Inert(p.ifGain) && Inert(p.bbGain) && Inert(p.duration)
  }

  lemma QuotedStaysInert(v: string)
    requires Inert(v)
    ensures Inert(Quoted(v))
  {
    forall k
      ensures !Contains(Quoted(v), KeyName(k))
    {
      var name := KeyName(k);
      assert !Contains("", name) by { assert |name| > 0; }
      ContainsAcross("", '"', v, name);
      assert "" + ['"'] + v == "\"" + v;
      ContainsAcross("\"" + v, '"', "", name);
      assert "\"" + v + ['"'] + "" == Quoted(v);
    }
  }

  /** A line "key=value" goes where the key alone would go. */
  lemma DispatchIgnoresValue(key: string, v: string)
    requires NoKeyIn(v)
    ensures Dispatch(key + "=" + v) == Dispatch(key)
  {
    var line := key + ['='] + v;
    assert key + "=" + v == line;
    forall k
      ensures Contains(line, KeyName(k)) <==> Contains(key, KeyName(k))
    {
      ContainsAcross(key, '=', v, KeyName(k));
    }
  }

  lemma DispatchMjd()
    ensures Dispatch("mjd") == Some(Mjd)
  {
    ContainsItself("mjd");
  }

  lemma DispatchFrequency()
    ensures Dispatch("frequency") == Some(Frequency)
  {
    AbsentByChar("frequency", "mjd", 1);
    ContainsItself("frequency");
  }

  lemma DispatchBandwidth()
    ensures Dispatch("bandwidth") == Some(Bandwidth)
  {
    AbsentByChar("bandwidth", "mjd", 1);
    AbsentByChar("bandwidth", "frequency", 3);
    ContainsItself("bandwidth");
  }

  lemma DispatchChannels()
    ensures Dispatch("channels") == Some(Channels)
  {
    AbsentByChar("channels", "mjd", 1);
    AbsentByChar("channels", "frequency", 3);
    AbsentByChar("channels", "bandwidth", 4);
    ContainsItself("channels");
  }

  lemma DispatchTSample()
    ensures Dispatch("t_sample") == Some(TSample)
  {
    AbsentByChar("t_sample", "mjd", 1);
    AbsentByChar("t_sample", "frequency", 3);
    AbsentByChar("t_sample", "bandwidth", 4);
    AbsentByChar("t_sample", "channels", 0);
    ContainsItself("t_sample");
  }

  /** A string without 'j', 'q', 'w', 'c' or 'p' contains none of "mjd",
      "frequency", "bandwidth", "channels" and "t_sample". */
  lemma DispatchNone(s: string)
    requires 'j' !in s && 'q' !in s && 'w' !in s && 'c' !in s && 'p' !in s
    ensures Dispatch(s) == None
  {
    AbsentByChar(s, "mjd", 1);
    AbsentByChar(s, "frequency", 3);
    AbsentByChar(s, "bandwidth", 4);
    AbsentByChar(s, "channels", 0);
    AbsentByChar(s, "t_sample", 5);
  }

  /** A written line whose key is read yields its value to that key. */
  lemma ReadableLine(k: Key, v: string)
    requires Recoverable(v)
    ensures Dispatch(Line(KeyName(k), v)) == Some(k)
    ensures FieldValue(Line(KeyName(k), v)) == Success(v)
  {
    match k {
      case Mjd => DispatchMjd();
      case Frequency => DispatchFrequency();
      case Bandwidth => DispatchBandwidth();
      case Channels => DispatchChannels();
      case TSample => DispatchTSample();
    }
    assert |KeyName(k)| > 0 && !IsSpace(KeyName(k)[0]) && '=' !in KeyName(k);
    DispatchIgnoresValue(KeyName(k), v);
    FieldValueOf(KeyName(k), v);
  }

  /** The keys observe writes that the reader does not look for. */
  predicate IgnoredKey(key: string) {
    key == "dev_args" || key == "rf_gain" || key == "if_gain" || key == "bb_gain" || key == "duration"
  }

  /** A written line whose key is not read passes through untouched. */
  lemma InertLine(key: string, v: string)
    requires IgnoredKey(key)
    requires Inert(v)
    ensures Dispatch(Line(key, v)) == None
  {
    DispatchNone(key);
    DispatchIgnoresValue(key, v);
  }

  lemma TakeLine(f: HeaderFields, line: string, rest: seq<string>, k: Key, v: string)
    requires Dispatch(line) == Some(k) && FieldValue(line) == Success(v)
    ensures Parse([line] + rest, f) == Parse(rest, Assign(f, k, v))
  {
    assert ([line] + rest)[1..] == rest;
  }

  lemma SkipLine(f: HeaderFields, line: string, rest: seq<string>)
    requires Dispatch(line) == None
    ensures Parse([line] + rest, f) == Parse(rest, f)
  {
    assert ([line] + rest)[1..] == rest;
  }

  /** A written line with a key the reader looks for assigns its value. */
  lemma ReadKeyLine(f: HeaderFields, k: Key, v: string, rest: seq<string>)
    requires Recoverable(v)
    ensures Parse([Line(KeyName(k), v)] + rest, f) == Parse(rest, Assign(f, k, v))
  {
    ReadableLine(k, v);
    TakeLine(f, Line(KeyName(k), v), rest, k, v);
  }

  /** A written line with any other key changes nothing. */
  lemma SkipKeyLine(f: HeaderFields, key: string, v: string, rest: seq<string>)
    requires IgnoredKey(key) && Inert(v)
    ensures Parse([Line(key, v)] + rest, f) == Parse(rest, f)
  {
    InertLine(key, v);
    SkipLine(f, Line(key, v), rest);
  }

  /** The first five written lines assign mjd and nothing else. */
  lemma ParseOpeningLines(p: ObsParameters, mjd: string, rest: seq<string>, f: HeaderFields)
    requires Writable(p, mjd)
    ensures Parse([Line("mjd", mjd)] + ([Line("dev_args", Quoted(p.devArgs))] + ([Line("rf_gain", p.rfGain)] +
                  ([Line("if_gain", p.ifGain)] + ([Line("bb_gain", p.bbGain)] + rest)))), f) ==
            Parse(rest, Assign(f, Mjd, mjd))
  {
    var g := Assign(f, Mjd, mjd);
    var r4 := [Line("bb_gain", p.bbGain)] + rest;
    var r3 := [Line("if_gain", p.ifGain)] + r4;
    var r2 := [Line("rf_gain", p.rfGain)] + r3;
    var r1 := [Line("dev_args", Quoted(p.devArgs))] + r2;
    ReadKeyLine(f, Mjd, mjd, r1);
    QuotedStaysInert(p.devArgs);
    SkipKeyLine(g, "dev_args", Quoted(p.devArgs), r2);
    SkipKeyLine(g, "rf_gain", p.rfGain, r3);
    SkipKeyLine(g, "if_gain", p.ifGain, r4);
    SkipKeyLine(g, "bb_gain", p.bbGain, rest);
  }

  /** The last five written lines assign frequency, bandwidth, channels and
      t_sample, in that order. */
  lemma ParseTuningLines(p: ObsParameters, mjd: string, f: HeaderFields)
    requires Writable(p, mjd)
    ensures Parse([Line("frequency", p.frequency)] + ([Line("bandwidth", p.bandwidth)] +
                  ([Line("channels", p.channels)] + ([Line("t_sample", p.tSample)] +
                  [Line("duration", p.duration)]))), f) ==
            Success(Assign(Assign(Assign(Assign(f, Frequency, p.frequency), Bandwidth, p.bandwidth),
                                  Channels, p.channels), TSample, p.tSample))
  {
    var r8 := [Line("t_sample", p.tSample)] + [Line("duration", p.duration)];
    var r7 := [Line("channels", p.channels)] + r8;
    var r6 := [Line("bandwidth", p.bandwidth)] + r7;
    var f2 := Assign(f, Frequency, p.frequency);
    var f3 := Assign(f2, Bandwidth, p.bandwidth);
    var f4 := Assign(f3, Channels, p.channels);
    var f5 := Assign(f4, TSample, p.tSample);
    ReadKeyLine(f, Frequency, p.frequency, r6);
    ReadKeyLine(f2, Bandwidth, p.bandwidth, r7);
    ReadKeyLine(f3, Channels, p.channels, r8);
    ReadKeyLine(f4, TSample, p.tSample, [Line("duration", p.duration)]);
    SkipKeyLine(f5, "duration", p.duration, []);
    assert [Line("duration", p.duration)] == [Line("duration", p.duration)] + [];
  }

  /** The reader loop, run over the lines observe writes, assigns the
      written mjd, frequency, bandwidth, channels and t_sample texts. */
  lemma ParseWrittenLines(p: ObsParameters, mjd: string)
    requires Writable(p, mjd)
    ensures Parse(WrittenLines(p, mjd), Unassigned) ==
              Success(HeaderFields(Some(mjd), Some(p.frequency), Some(p.bandwidth),
                                   Some(p.channels), Some(p.tSample)))
  {
    var tuning := [Line("frequency", p.frequency)] + ([Line("bandwidth", p.bandwidth)] +
                  ([Line("channels", p.channels)] + ([Line("t_sample", p.tSample)] +
                  [Line("duration", p.duration)])));
    assert WrittenLines(p, mjd) ==
      [Line("mjd", mjd)] + ([Line("dev_args", Quoted(p.devArgs))] + ([Line("rf_gain", p.rfGain)] +
      ([Line("if_gain", p.ifGain)] + ([Line("bb_gain", p.bbGain)] + tuning))));
    ParseOpeningLines(p, mjd, tuning, Unassigned);
    ParseTuningLines(p, mjd, Assign(Unassigned, Mjd, mjd));
  }

  /** Every written line stays on one line, and the last is not empty, so
      reading the text back gives the written lines. */
  lemma ReadLinesOfWrittenHeader(p: ObsParameters, mjd: string)
    requires Writable(p, mjd)
    ensures HeaderLines(HeaderText(p, mjd)) == WrittenLines(p, mjd)
  {
    var ls := WrittenLines(p, mjd);
    assert '\n' !in Quoted(p.devArgs);
    forall i | 0 <= i < |ls|
      ensures '\n' !in ls[i]
    {
    }
    HeaderLinesOfJoin(ls);
  }

  /** Reading the header that observe wrote recovers the written mjd,
      frequency, bandwidth, channels and t_sample texts. */
  lemma ReadBackWrittenHeader(p: ObsParameters, mjd: string)
    requires Writable(p, mjd)
    ensures Parse(HeaderLines(HeaderText(p, mjd)), Unassigned) ==
              Success(HeaderFields(Some(mjd), Some(p.frequency), Some(p.bandwidth),
                                   Some(p.channels), Some(p.tSample)))
  {
    ReadLinesOfWrittenHeader(p, mjd);
    ParseWrittenLines(p, mjd);
  }
}
