/** The reader of ngspice binary .raw files in rawtocsv.py: `rawread` walks the file line by
    line, keeps the whitelisted `key: value` metadata of the current plot, reads the variables
    block, and at each `binary` marker takes the payload as one array and starts a new plot;
    `convert_raw_to_csv` picks the .raw files of a directory and names the .csv written for each.

    A file is the sequence of byte strings that successive readline calls return, each with its
    line end. The binary payload after a `binary` marker is the one element that numpy's
    fromfile consumes; its contents are opaque here. An empty element where the loop reads its
    next line stands for the end of the file, as readline returns b'' only there; the payload
    element and the line discarded after it may be empty without ending anything. */
module RawRead {
  import opened Text

  type Bytes = seq<byte>

  // ---------------------------------------------------------------------------------------------
  // Byte-string constants, spelled as their ASCII codes

  const Colon: byte := 58
  const Title: Bytes := [116, 105, 116, 108, 101]                                // b'title'
  const Date: Bytes := [100, 97, 116, 101]                                       // b'date'
  const PlotName: Bytes := [112, 108, 111, 116, 110, 97, 109, 101]               // b'plotname'
  const Flags: Bytes := [102, 108, 97, 103, 115]                                 // b'flags'
  const NoVariables: Bytes := [110, 111, 46, 32, 118, 97, 114, 105, 97, 98, 108, 101, 115]  // b'no. variables'
  const NoPoints: Bytes := [110, 111, 46, 32, 112, 111, 105, 110, 116, 115]      // b'no. points'
  const Dimensions: Bytes := [100, 105, 109, 101, 110, 115, 105, 111, 110, 115]  // b'dimensions'
  const Command: Bytes := [99, 111, 109, 109, 97, 110, 100]                      // b'command'
  const OptionKey: Bytes := [111, 112, 116, 105, 111, 110]                       // b'option'
  const Variables: Bytes := [118, 97, 114, 105, 97, 98, 108, 101, 115]           // b'variables'
  const Binary: Bytes := [98, 105, 110, 97, 114, 121]                            // b'binary'
  const Complex: Bytes := [99, 111, 109, 112, 108, 101, 120]                     // b'complex'

  /** MDATA_LIST: the only keys stored in a plot. */
  const MetadataKeys: seq<Bytes> := [Title, Date, PlotName, Flags, NoVariables, NoPoints, Dimensions, Command, OptionKey]

  // ---------------------------------------------------------------------------------------------
  // Plots, arrays and errors

  /** The names and units of the variables block ('varnames' and 'varunits'). */
  datatype Vars = Vars(names: seq<string>, units: seq<string>)

  /** The `plot` dict: the stored metadata, and the variables once their block was read. */
  datatype Plot = Plot(meta: map<Bytes, Bytes>, vars: Option<Vars>)

  const EmptyPlot := Plot(map[], None)

  /** What np.fromfile returns, opaque: the field names of the row type, whether the fields are
      complex, the row count asked for and the payload read. */
  datatype Arr = Arr(names: seq<string>, complex: bool, count: int, payload: Bytes)

  /** The exceptions that escape rawread. */
  datatype RawError =
    | MissingKey(key: Bytes)   // KeyError on a metadata key
    | MissingVarNames          // KeyError on 'varnames'
    | ValueError               // int() of something that is not an integer
    | IndexError               // a variable line with too few fields
    | AssertionError           // a variable line that does not start with its index
    | UnicodeDecodeError       // a variable line that is not ASCII
    | OSError                  // open() of the file failed: missing, a directory, not readable

  datatype Outcome<T> = Ok(value: T) | Fail(error: RawError)

  datatype RawResult = Read(arrs: seq<Arr>, plots: seq<Plot>) | Raised(error: RawError)

  /** What readline returns at position i: b'' past the end. */
  function ReadLine(file: seq<Bytes>, i: nat): Bytes {
    if i < |file| then file[i] else []
  }

  // ---------------------------------------------------------------------------------------------
  // One metadata line

  /** line.split(b':', maxsplit=1): with two parts, the key is the lower-cased part before the
      first colon and the value the stripped rest. */
  function SplitMeta(line: Bytes): (r: Option<(Bytes, Bytes)>)
    ensures r.None? <==> Colon !in line
  {
    var k := IndexOf(line, Colon);
    if k == |line| then None else Some((LowerBytes(line[..k]), StripBytes(line[k + 1..])))
  }

  /** The split is at the first colon: later colons stay in the value. */
  lemma SplitAtFirstColon(key: Bytes, rest: Bytes)
    requires Colon !in key
    ensures SplitMeta(key + [Colon] + rest) == Some((LowerBytes(key), StripBytes(rest)))
  {
    var line := key + [Colon] + rest;
    var k := IndexOf(line, Colon);
    assert line[|key|] == Colon;
    assert forall j :: 0 <= j < |key| ==> line[j] == key[j];
    assert line[..k] == key && line[k + 1..] == rest;
  }

  /** A plot stores only whitelisted keys. */
  predicate Whitelisted(p: Plot) {
    forall k :: k in p.meta ==> k in MetadataKeys
  }

  /** Storing one metadata line: the value replaces any earlier one when the key is whitelisted. */
  function Store(p: Plot, key: Bytes, val: Bytes): Plot {
    if key in MetadataKeys then p.(meta := p.meta[key := val]) else p
  }

  /** Storing keeps the plot to whitelisted keys, replaces the value of a whitelisted key, and
      changes nothing else. */
  lemma StoreKeeps(p: Plot, key: Bytes, val: Bytes)
    ensures var q := Store(p, key, val);
      && (Whitelisted(p) ==> Whitelisted(q))
      && q.vars == p.vars
      && (key in MetadataKeys ==> key in q.meta && q.meta[key] == val)
      && (key !in MetadataKeys ==> q == p)
      && forall k :: k != key ==> (k in q.meta <==> k in p.meta) && (k in p.meta ==> q.meta[k] == p.meta[k])
  {
  }

  // ---------------------------------------------------------------------------------------------
  // The variables block

  /** One line of the variables block: stripped, decoded as ASCII and split on white space; its
      first field must be the index `k`, the next two are the name and the unit. */
  function VarLine(line: Bytes, k: nat): Outcome<(string, string)> {
    var t := StripBytes(line);
    if !IsAsciiBytes(t) then Fail(UnicodeDecodeError)
    else
      var spec := Words(AsciiDecode(t));
      if |spec| == 0 then Fail(IndexError)
      else match ParseInt(spec[0])
        case None => Fail(ValueError)
        case Some(v) =>
          if v != k then Fail(AssertionError)
          else if |spec| < 3 then Fail(IndexError)
          else Ok((spec[1], spec[2]))
  }

  /** A field of a variable line: ASCII, non-empty and without white space. */
  predicate IsField(s: string) {
    s != [] && IsAscii(s) && NoSpace(s)
  }

  /** A variable line as ngspice writes it: a tab, the index, a tab, the name, a tab, the unit and
      the line end. */
  function VarSpecLine(k: nat, name: string, unit: string): Bytes
    requires IsField(name) && IsField(unit)
  {
    AsciiBytes("\t" + NatToDecimal(k) + "\t" + name + "\t" + unit + "\n")
  }

  /** rawread reads back a variable line as ngspice writes it. */
  lemma VarSpecRoundTrip(k: nat, name: string, unit: string)
    requires IsField(name) && IsField(unit)
    ensures VarLine(VarSpecLine(k, name, unit), k) == Ok((name, unit))
  {
    var d := NatToDecimal(k);
    var body := d + "\t" + name + "\t" + unit;
    SpecLineBody(k, name, unit);
    BodyWords(d, name, unit);
    DecimalRoundTrip(k);
  }

  /** The stripped variable line is ASCII and decodes to the three fields between tabs. */
  lemma SpecLineBody(k: nat, name: string, unit: string)
    requires IsField(name) && IsField(unit)
    ensures var body := NatToDecimal(k) + "\t" + name + "\t" + unit;
      var t := StripBytes(VarSpecLine(k, name, unit));
      IsAsciiBytes(t) && AsciiDecode(t) == body
  {
    var d := NatToDecimal(k);
    var body := d + "\t" + name + "\t" + unit;
    FieldsAscii(d, name, unit);
    assert "\t" + d + "\t" + name + "\t" + unit + "\n" == "\t" + body + "\n";
    assert !IsSpace(d[0]);
    assert body[0] == d[0] && body[|body| - 1] == unit[|unit| - 1];
    FramedBody(body);
  }

  /** A tab, an ASCII text with no white space at either end, and a line end: stripped and
      decoded, the text. */
  lemma FramedBody(body: string)
    requires body != [] && IsAscii(body) && !IsSpace(body[0]) && !IsSpace(body[|body| - 1])
    ensures var t := StripBytes(AsciiBytes("\t" + body + "\n"));
      IsAsciiBytes(t) && AsciiDecode(t) == body
  {
    FramedBytes(body);
    EndBytes(body);
    StripFramed(AsciiBytes(body));
    AsciiRoundTrip(body);
  }

  /** The bytes of an ASCII string with no white space at either end have no white space at
      either end. */
  lemma EndBytes(s: string)
    requires s != [] && IsAscii(s) && !IsSpace(s[0]) && !IsSpace(s[|s| - 1])
    ensures var b := AsciiBytes(s); !IsAsciiSpaceByte(b[0]) && !IsAsciiSpaceByte(b[|b| - 1])
  {
  }

  /** The words of the three fields joined by tabs are the fields. */
  lemma BodyWords(d: string, name: string, unit: string)
    requires AllDigits(d) && d != [] && IsField(name) && IsField(unit)
    ensures Words(d + "\t" + name + "\t" + unit) == [d, name, unit]
  {
    DigitsAreWord(d);
    WordsOfSeparated(d, '\t', name + "\t" + unit);
    WordsOfSeparated(name, '\t', unit);
    WordsOfWord(unit, []);
    assert d + "\t" + name + "\t" + unit == d + ['\t'] + (name + ['\t'] + unit);
    assert unit + [] == unit;
  }

  lemma FieldsAscii(d: string, name: string, unit: string)
    requires AllDigits(d) && IsAscii(name) && IsAscii(unit)
    ensures IsAscii(d + "\t" + name + "\t" + unit)
  {
    AsciiConcat(d, "\t");
    AsciiConcat(d + "\t", name);
    AsciiConcat(d + "\t" + name, "\t");
    AsciiConcat(d + "\t" + name + "\t", unit);
  }

  lemma FramedBytes(body: string)
    requires IsAscii(body)
    ensures IsAscii("\t" + body + "\n") && AsciiBytes("\t" + body + "\n") == [9] + AsciiBytes(body) + [10]
  {
    AsciiConcat("\t", body);
    AsciiConcat("\t" + body, "\n");
    var s := "\t" + body + "\n";
    assert forall i :: 0 <= i < |body| ==> s[i + 1] == body[i];
  }

  /** bytes.strip() drops the tab before and the line end after a field that does not start or
      end with white space. */
  lemma StripFramed(b: Bytes)
    requires b != [] && !IsAsciiSpaceByte(b[0]) && !IsAsciiSpaceByte(b[|b| - 1])
    ensures StripBytes([9] + b + [10]) == b
  {
    var s := [9] + b + [10];
    assert s[1..] == b + [10];
    assert Trim(s, IsAsciiSpaceByte) == Trim(b + [10], IsAsciiSpaceByte);
    assert (b + [10])[..|b|] == b;
    assert Trim(b + [10], IsAsciiSpaceByte) == Trim(b, IsAsciiSpaceByte);
    TrimUnchanged(b, IsAsciiSpaceByte);
  }

  lemma DigitsAreWord(d: string)
    requires AllDigits(d)
    ensures NoSpace(d)
  {
    forall i | 0 <= i < |d| ensures !IsSpace(d[i]) {
      assert !IsSpace(d[i]);
    }
  }

  /** The variables block with `vs` read so far, k of n lines consumed from `start` on. */
  function VarLines(file: seq<Bytes>, start: nat, n: int, k: nat, vs: Vars): (r: Outcome<Vars>)
    requires |vs.names| == |vs.units| == k
    ensures r.Ok? ==> |r.value.names| == |r.value.units| == if n < k then k else n
    ensures r.Ok? ==> r.value.names[..k] == vs.names && r.value.units[..k] == vs.units
    decreases n - k
  {
    if k >= n then Ok(vs)
    else match VarLine(ReadLine(file, start + k), k)
      case Fail(e) => Fail(e)
      case Ok((name, unit)) =>
        var r := VarLines(file, start, n, k + 1, Vars(vs.names + [name], vs.units + [unit]));
        if r.Fail? then r
        else
          assert r.value.names[..k + 1][..k] == r.value.names[..k];
          assert r.value.units[..k + 1][..k] == r.value.units[..k];
          r
  }

  /** Line j of the block read from line k on gives the name and the unit of variable j. */
  lemma {:induction false} VarLinesLine(file: seq<Bytes>, start: nat, n: int, k: nat, vs: Vars, j: nat)
    requires |vs.names| == |vs.units| == k
    requires VarLines(file, start, n, k, vs).Ok? && k <= j < |VarLines(file, start, n, k, vs).value.names|
    ensures var r := VarLines(file, start, n, k, vs).value;
      VarLine(ReadLine(file, start + j), j) == Ok((r.names[j], r.units[j]))
    decreases n - k
  {
    var o := VarLine(ReadLine(file, start + k), k);
    var vs' := Vars(vs.names + [o.value.0], vs.units + [o.value.1]);
    if j > k {
      VarLinesLine(file, start, n, k + 1, vs', j);
    } else {
      var r := VarLines(file, start, n, k + 1, vs').value;
      assert r.names[..k + 1][k] == vs'.names[k] && r.units[..k + 1][k] == vs'.units[k];
    }
  }

  /** int(plot[b'no. variables']) and int(plot[b'no. points']), in that order: the block needs
      both stored earlier in the same plot, both integers; the first is the line count. */
  function VariablesHead(p: Plot): (r: Outcome<int>)
    ensures r.Ok? <==> && NoVariables in p.meta && ParseIntBytes(p.meta[NoVariables]).Some?
                       && NoPoints in p.meta && ParseIntBytes(p.meta[NoPoints]).Some?
    ensures r.Ok? ==> r.value == ParseIntBytes(p.meta[NoVariables]).value
    ensures NoVariables !in p.meta ==> r == Fail(MissingKey(NoVariables))
    ensures NoVariables in p.meta && ParseIntBytes(p.meta[NoVariables]).Some? && NoPoints !in p.meta ==>
      r == Fail(MissingKey(NoPoints))
  {
    if NoVariables !in p.meta then Fail(MissingKey(NoVariables))
    else match ParseIntBytes(p.meta[NoVariables])
      case None => Fail(ValueError)
      case Some(n) =>
        if NoPoints !in p.meta then Fail(MissingKey(NoPoints))
        else if ParseIntBytes(p.meta[NoPoints]).None? then Fail(ValueError)
        else Ok(n)
  }

  /** The block after a `variables` line: `no. variables` lines. */
  function VariablesBlock(file: seq<Bytes>, start: nat, p: Plot): (r: Outcome<Vars>)
    ensures r.Ok? ==> VariablesHead(p).Ok? && |r.value.names| == |r.value.units| == Max0(VariablesHead(p).value)
    ensures VariablesHead(p).Fail? ==> r == Fail(VariablesHead(p).error)
  {
    match VariablesHead(p)
      case Fail(e) => Fail(e)
      case Ok(n) => VarLines(file, start, n, 0, Vars([], []))
  }

  /** Line j of the block gives the name and the unit of variable j. */
  lemma VariablesBlockLine(file: seq<Bytes>, start: nat, p: Plot, j: nat)
    requires VariablesBlock(file, start, p).Ok? && j < |VariablesBlock(file, start, p).value.names|
    ensures var r := VariablesBlock(file, start, p).value;
      VarLine(ReadLine(file, start + j), j) == Ok((r.names[j], r.units[j]))
  {
    VarLinesLine(file, start, VariablesHead(p).value, 0, Vars([], []), j);
  }

  function Max0(n: int): nat {
    if n < 0 then 0 else n
  }

  // ---------------------------------------------------------------------------------------------
  // The binary marker

  /** The array of one plot and what it was read from. */
  predicate Matches(a: Arr, p: Plot) {
    && p.vars.Some? && Flags in p.meta && NoPoints in p.meta
    && a.names == p.vars.value.names
    && (a.complex <==> Contains(p.meta[Flags], Complex))
    && ParseIntBytes(p.meta[NoPoints]) == Some(a.count)
  }

  /** The payload read at a `binary` marker: the row type has one field per variable name, complex
      when the flags mention `complex`, and `no. points` rows are asked for. */
  function PayloadArray(file: seq<Bytes>, at: nat, p: Plot): Outcome<Arr> {
    if p.vars.None? then Fail(MissingVarNames)
    else if Flags !in p.meta then Fail(MissingKey(Flags))
    else if NoPoints !in p.meta then Fail(MissingKey(NoPoints))
    else match ParseIntBytes(p.meta[NoPoints])
      case None => Fail(ValueError)
      case Some(c) => Ok(Arr(p.vars.value.names, Contains(p.meta[Flags], Complex), c, ReadLine(file, at)))
  }

  /** The payload is read exactly when the plot has its variables, its flags and an integer
      `no. points`; the array then matches the plot. */
  lemma PayloadMatches(file: seq<Bytes>, at: nat, p: Plot)
    ensures var r := PayloadArray(file, at, p);
      && (r.Ok? <==> p.vars.Some? && Flags in p.meta && NoPoints in p.meta && ParseIntBytes(p.meta[NoPoints]).Some?)
      && (r.Ok? ==> Matches(r.value, p) && r.value.payload == ReadLine(file, at))
  {
  }

  // ---------------------------------------------------------------------------------------------
  // The whole file

  /** The state of rawread between lines: the arrays and plots finished and the current plot. */
  datatype Reader = Reader(arrs: seq<Arr>, plots: seq<Plot>, plot: Plot)

  const Start := Reader([], [], EmptyPlot)

  /** rawread from line i on. */
  function Scan(file: seq<Bytes>, i: nat, st: Reader): RawResult
    decreases |file| - i, 3
  {
    if i >= |file| || file[i] == [] then Read(st.arrs, st.plots)
    else ScanLine(file, i, st, SplitMeta(file[i]))
  }

  /** Line i split: a line without a colon is passed over. */
  function ScanLine(file: seq<Bytes>, i: nat, st: Reader, m: Option<(Bytes, Bytes)>): RawResult
    requires i < |file|
    decreases |file| - i, 2
  {
    match m
    case None => Scan(file, i + 1, st)
    case Some((key, val)) => ScanEntry(file, i, st, key, Store(st.plot, key, val))
  }

  /** A metadata line, stored as `p`: `variables` and `binary` read on. */
  function ScanEntry(file: seq<Bytes>, i: nat, st: Reader, key: Bytes, p: Plot): RawResult
    requires i < |file|
    decreases |file| - i, 1
  {
    if key == Variables then AfterVariables(file, i, st, p, VariablesBlock(file, i + 1, p))
    else if key == Binary then AfterPayload(file, i, st, p, PayloadArray(file, i + 1, p))
    else Scan(file, i + 1, st.(plot := p))
  }

  /** After the variables block: the lines read are skipped and the plot gets the variables. */
  function AfterVariables(file: seq<Bytes>, i: nat, st: Reader, p: Plot, o: Outcome<Vars>): RawResult
    requires i < |file|
    decreases |file| - i, 0
  {
    match o
    case Fail(e) => Raised(e)
    case Ok(vs) => Scan(file, i + 1 + |vs.names|, st.(plot := p.(vars := Some(vs))))
  }

  /** After the payload: the plot and its array are finished, a new plot starts, and the
      readline that follows the payload discards the next line. */
  function AfterPayload(file: seq<Bytes>, i: nat, st: Reader, p: Plot, o: Outcome<Arr>): RawResult
    requires i < |file|
    decreases |file| - i, 0
  {
    match o
    case Fail(e) => Raised(e)
    case Ok(a) => Scan(file, i + 3, Reader(st.arrs + [a], st.plots + [p], EmptyPlot))
  }

  /** What rawread returns for a file. */
  function ReadRawSpec(file: seq<Bytes>): RawResult {
    Scan(file, 0, Start)
  }

  /** The arrays and plots of a file read so far: one array per plot, each read from its plot. */
  predicate Paired(arrs: seq<Arr>, plots: seq<Plot>) {
    && |arrs| == |plots|
    && forall j :: 0 <= j < |plots| ==> Whitelisted(plots[j]) && Matches(arrs[j], plots[j])
  }

  predicate Sound(st: Reader) {
    Paired(st.arrs, st.plots) && Whitelisted(st.plot)
  }

  /** What rawread finishes from a sound state extends it and is paired. */
  predicate Extends(r: RawResult, st: Reader) {
    r.Read? ==> Paired(r.arrs, r.plots) && st.arrs <= r.arrs && st.plots <= r.plots
  }

  /** Every plot rawread returns has an array read from it, and stores whitelisted keys only. */
  lemma {:induction false} ScanPaired(file: seq<Bytes>, i: nat, st: Reader)
    requires Sound(st)
    ensures Extends(Scan(file, i, st), st)
    decreases |file| - i, 3
  {
    if i < |file| && file[i] != [] {
      match SplitMeta(file[i])
      case None =>
        ScanPaired(file, i + 1, st);
      case Some((key, val)) =>
        StoreKeeps(st.plot, key, val);
        EntryPaired(file, i, st, key, Store(st.plot, key, val));
    }
  }

  lemma {:induction false} EntryPaired(file: seq<Bytes>, i: nat, st: Reader, key: Bytes, p: Plot)
    requires i < |file| && Sound(st) && Whitelisted(p)
    ensures Extends(ScanEntry(file, i, st, key, p), st)
    decreases |file| - i, 1
  {
    if key == Variables {
      VariablesPaired(file, i, st, p, VariablesBlock(file, i + 1, p));
    } else if key == Binary {
      PayloadMatches(file, i + 1, p);
      PayloadPaired(file, i, st, p, PayloadArray(file, i + 1, p));
    } else {
      ScanPaired(file, i + 1, st.(plot := p));
    }
  }

  lemma {:induction false} VariablesPaired(file: seq<Bytes>, i: nat, st: Reader, p: Plot, o: Outcome<Vars>)
    requires i < |file| && Sound(st) && Whitelisted(p)
    ensures Extends(AfterVariables(file, i, st, p, o), st)
    decreases |file| - i, 0
  {
    if o.Ok? {
      ScanPaired(file, i + 1 + |o.value.names|, st.(plot := p.(vars := Some(o.value))));
    }
  }

  lemma {:induction false} PayloadPaired(file: seq<Bytes>, i: nat, st: Reader, p: Plot, o: Outcome<Arr>)
    requires i < |file| && Sound(st) && Whitelisted(p) && (o.Ok? ==> Matches(o.value, p))
    ensures Extends(AfterPayload(file, i, st, p, o), st)
    decreases |file| - i, 0
  {
    if o.Ok? {
      var next := Reader(st.arrs + [o.value], st.plots + [p], EmptyPlot);
      assert Sound(next);
      ScanPaired(file, i + 3, next);
      assert st.arrs <= next.arrs && st.plots <= next.plots;
    }
  }

  /** Two files that agree from line i on. */
  predicate AgreeFrom(file: seq<Bytes>, other: seq<Bytes>, i: nat) {
    |file| == |other| && forall j :: i <= j < |file| ==> file[j] == other[j]
  }

  /** rawread from line i on reads nothing before line i. */
  lemma {:induction false} ScanFrame(file: seq<Bytes>, other: seq<Bytes>, i: nat, st: Reader)
    requires AgreeFrom(file, other, i)
    ensures Scan(file, i, st) == Scan(other, i, st)
    decreases |file| - i, 3
  {
    if i < |file| && file[i] != [] {
      match SplitMeta(file[i])
      case None =>
        ScanFrame(file, other, i + 1, st);
      case Some((key, val)) =>
        EntryFrame(file, other, i, st, key, Store(st.plot, key, val));
    }
  }

  lemma {:induction false} EntryFrame(file: seq<Bytes>, other: seq<Bytes>, i: nat, st: Reader, key: Bytes, p: Plot)
    requires i < |file| && AgreeFrom(file, other, i)
    ensures ScanEntry(file, i, st, key, p) == ScanEntry(other, i, st, key, p)
    decreases |file| - i, 1
  {
    if key == Variables {
      if VariablesHead(p).Ok? {
        VarLinesFrame(file, other, i + 1, VariablesHead(p).value, 0, Vars([], []));
      }
      var o := VariablesBlock(file, i + 1, p);
      if o.Ok? {
        ScanFrame(file, other, i + 1 + |o.value.names|, st.(plot := p.(vars := Some(o.value))));
      }
    } else if key == Binary {
      assert ReadLine(file, i + 1) == ReadLine(other, i + 1);
      var o := PayloadArray(file, i + 1, p);
      if o.Ok? {
        ScanFrame(file, other, i + 3, Reader(st.arrs + [o.value], st.plots + [p], EmptyPlot));
      }
    } else {
      ScanFrame(file, other, i + 1, st.(plot := p));
    }
  }

  lemma {:induction false} VarLinesFrame(file: seq<Bytes>, other: seq<Bytes>, start: nat, n: int, k: nat, vs: Vars)
    requires |vs.names| == |vs.units| == k && AgreeFrom(file, other, start)
    ensures VarLines(file, start, n, k, vs) == VarLines(other, start, n, k, vs)
    decreases n - k
  {
    if k < n {
      assert ReadLine(file, start + k) == ReadLine(other, start + k);
      var o := VarLine(ReadLine(file, start + k), k);
      if o.Ok? {
        VarLinesFrame(file, other, start, n, k + 1, Vars(vs.names + [o.value.0], vs.units + [o.value.1]));
      }
    }
  }

  /** The readline after a payload throws its line away: at a `binary` marker, whatever stands
      two lines further on changes nothing in what rawread returns. */
  lemma PayloadDiscardsNextLine(file: seq<Bytes>, i: nat, st: Reader, val: Bytes, x: Bytes)
    requires i + 2 < |file| && file[i] != [] && SplitMeta(file[i]) == Some((Binary, val))
    ensures Scan(file, i, st) == Scan(file[i + 2 := x], i, st)
  {
    var other := file[i + 2 := x];
    var p := Store(st.plot, Binary, val);
    assert other[i] == file[i] && ReadLine(file, i + 1) == ReadLine(other, i + 1);
    var o := PayloadArray(file, i + 1, p);
    assert Scan(file, i, st) == ScanEntry(file, i, st, Binary, p) == AfterPayload(file, i, st, p, o);
    assert Scan(other, i, st) == ScanEntry(other, i, st, Binary, p) == AfterPayload(other, i, st, p, o);
    if o.Ok? {
      ScanFrame(file, other, i + 3, Reader(st.arrs + [o.value], st.plots + [p], EmptyPlot));
    }
  }

  /** A line without a colon is passed over. */
  lemma ScanSkipsPlainLine(file: seq<Bytes>, i: nat, st: Reader)
    requires i < |file| && file[i] != [] && Colon !in file[i]
    ensures Scan(file, i, st) == Scan(file, i + 1, st)
  {
  }

  // ---------------------------------------------------------------------------------------------
  // rawread

  /** The loop of the variables block. */
  method ReadVariableLines(file: seq<Bytes>, start: nat, n: int) returns (r: Outcome<Vars>)
    ensures r == VarLines(file, start, n, 0, Vars([], []))
  {
    var names: seq<string> := [];
    var units: seq<string> := [];
    var varn := 0;
    while varn < n
      invariant |names| == |units| == varn
      invariant VarLines(file, start, n, varn, Vars(names, units)) == VarLines(file, start, n, 0, Vars([], []))
      decreases n - varn
    {
      var spec := VarLine(ReadLine(file, start + varn), varn);
      if spec.Fail? {
        return Fail(spec.error);
      }
      names := names + [spec.value.0];
      units := units + [spec.value.1];
      varn := varn + 1;
    }
    r := Ok(Vars(names, units));
  }

  /** The `variables` branch: the two counts, then the lines. */
  method ReadVariables(file: seq<Bytes>, start: nat, plot: Plot) returns (r: Outcome<Vars>)
    ensures r == VariablesBlock(file, start, plot)
  {
    var nvars := VariablesHead(plot);
    if nvars.Fail? {
      return Fail(nvars.error);
    }
    r := ReadVariableLines(file, start, nvars.value);
  }

  /** One metadata line of rawread, already stored into the plot `p`: either the reading stops
      with `r`, or it goes on at line `j` from state `next`. */
  method ReadEntry(file: seq<Bytes>, i: nat, st: Reader, key: Bytes, p: Plot)
    returns (stop: bool, r: RawResult, j: nat, next: Reader)
    requires i < |file|
    ensures i < j
    ensures stop ==> r == ScanEntry(file, i, st, key, p)
    ensures !stop ==> ScanEntry(file, i, st, key, p) == Scan(file, j, next)
  {
    stop, r, j, next := false, Read([], []), i + 1, st.(plot := p);
    if key == Variables {
      var vs := ReadVariables(file, i + 1, p);
      if vs.Fail? {
        stop, r := true, Raised(vs.error);
      } else {
        j, next := i + 1 + |vs.value.names|, st.(plot := p.(vars := Some(vs.value)));
      }
    } else if key == Binary {
      var a := PayloadArray(file, i + 1, p);
      if a.Fail? {
        stop, r := true, Raised(a.error);
      } else {
        // the readline after the payload is discarded
        j, next := i + 3, Reader(st.arrs + [a.value], st.plots + [p], EmptyPlot);
      }
    }
  }

  /** rawread(fname) on the lines of the file. */
  method ReadRaw(file: seq<Bytes>) returns (r: RawResult)
    ensures r == ReadRawSpec(file)
    ensures r.Read? ==> Paired(r.arrs, r.plots)
  {
    ScanPaired(file, 0, Start);
    var st := Start;
    var i := 0;
    while true
      invariant Scan(file, i, st) == ReadRawSpec(file)
      decreases |file| - i
    {
      var line := ReadLine(file, i);
      if line == [] {
        break;
      }
      var mdata := SplitMeta(line);
      assert Scan(file, i, st) == ScanLine(file, i, st, mdata);
      if mdata.None? {
        i := i + 1;
      } else {
        var (key, val) := mdata.value;
        var stop, res, j, next := ReadEntry(file, i, st, key, Store(st.plot, key, val));
        if stop {
          return res;
        }
        i, st := j, next;
      }
    }
    r := Read(st.arrs, st.plots);
  }
}
