/** The netlist text that SpiceGenerator.generate_netlist builds from the imported netlist, the
    stimulus records, the analysis type and the analysis fields, in both gui.py variants: the
    one that reads missing parameters as defaults with dict.get, and the one that indexes with
    [] and raises KeyError. */
module SpiceNetlist {
  import opened Text

  /** A stimulus record: {"type", "name", "node", "params"}. */
  datatype Stimulus = Stimulus(kind: string, name: string, node: string, params: map<string, string>)

  /** What the strict variant computes: a value, or the KeyError of the first key missing. */
  datatype Result<T> = Ok(value: T) | KeyError(key: string)

  // ---------------------------------------------------------------------------------------------
  // The parameter schemas (update_stimuli_params, update_analysis_params)

  const Pulse: string := "PULSE"
  const Pwl: string := "PWL"
  const Vdc: string := "VDC"
  const Vac: string := "VAC"
  const Idc: string := "IDC"

  /** The items of the stimulus type combo box. */
  const SourceTypes: seq<string> := [Pulse, Pwl, Vdc, Vac, Idc]

  const PwlKey: string := "Time-Voltage Pairs (t1 v1 t2 v2 ...)"

  /** The parameter fields shown for a stimulus type, in form order; none for any other text. */
  function Schema(kind: string): (keys: seq<string>)
    ensures kind in SourceTypes <==> keys != []
    ensures kind == Pulse ==> |keys| == 7
    ensures kind == Pwl || kind == Vdc || kind == Idc ==> |keys| == 1
    ensures kind == Vac ==> |keys| == 3
  {
    if kind == Pulse then ["V_initial", "V_on", "delay", "rise_time", "fall_time", "pulse_width", "period"]
    else if kind == Pwl then [PwlKey]
    else if kind == Vdc then ["Voltage"]
    else if kind == Vac then ["Amplitude", "Frequency", "Phase"]
    else if kind == Idc then ["Current"]
    else []
  }

  const Transient: string := "Transient"
  const Dc: string := "DC"

  /** The analysis fields shown for an analysis type, in form order. */
  function AnalysisKeys(analysis: string): seq<string> {
    if analysis == Transient then ["Stop Time", "Time Step", "Max Step", "Min Step"]
    else if analysis == Dc then ["Start Value", "Stop Value", "Step"]
    else []
  }

  // ---------------------------------------------------------------------------------------------
  // One stimulus line

  /** The line of a stimulus of a known type without its line end, given the parameter values in
      schema order: the source name, its node, the ground node 0 and the source specification. */
  function Body(kind: string, name: string, node: string, v: seq<string>): string
    requires kind in SourceTypes && |v| == |Schema(kind)|
  {
    Join([name, node, "0", SourceSpec(kind, v)])
  }

  /** The source specification of each type, as its f-string writes it. */
  function SourceSpec(kind: string, v: seq<string>): string
    requires kind in SourceTypes && |v| == |Schema(kind)|
  {
    if kind == Pulse then
      "PULSE(" + v[0] + " " + v[1] + " " + v[2] + " " + v[3] + " " + v[4] + " " + v[5] + " " + v[6] + ")"
    else if kind == Pwl then "PWL(" + v[0] + ")"
    else if kind == Vac then "AC " + v[0] + " SIN(0 " + v[0] + " " + v[1] + " " + v[2] + ")"
    else "DC " + v[0]
  }

  /** What dict.get gives for a missing parameter: '0' for the VAC phase, '' otherwise. */
  function Default(kind: string, key: string): string {
    if kind == Vac && key == "Phase" then "0" else ""
  }

  /** The parameter values as the lenient variant reads them, in schema order. */
  function LenientValues(s: Stimulus): (v: seq<string>)
    ensures |v| == |Schema(s.kind)|
    ensures forall i :: 0 <= i < |v| ==>
      v[i] == if Schema(s.kind)[i] in s.params then s.params[Schema(s.kind)[i]] else Default(s.kind, Schema(s.kind)[i])
  {
    var keys := Schema(s.kind);
    seq(|keys|, i requires 0 <= i < |keys| =>
      if keys[i] in s.params then s.params[keys[i]] else Default(s.kind, keys[i]))
  }

  /** The line of a stimulus without its line end; none for a type outside the schemas. */
  function StimulusBody(s: Stimulus): Option<string> {
    if s.kind in SourceTypes then Some(Body(s.kind, s.name, s.node, LenientValues(s))) else None
  }

  function Terminated(b: Option<string>): string {
    match b
    case None => ""
    case Some(line) => line + "\n"
  }

  /** Each optional line with its line end, one after the other. */
  function Joined(bs: seq<Option<string>>): string {
    if bs == [] then "" else Terminated(bs[0]) + Joined(bs[1..])
  }

  function Bodies(stims: seq<Stimulus>): (r: seq<Option<string>>)
    ensures |r| == |stims|
  {
    seq(|stims|, i requires 0 <= i < |stims| => StimulusBody(stims[i]))
  }

  /** The text the loop over the records appends, in list order. */
  function StimulusLines(stims: seq<Stimulus>): string {
    Joined(Bodies(stims))
  }

  // ---------------------------------------------------------------------------------------------
  // The analysis line

  /** `.TRAN <step> <stop>`, then the max and the min step when given; no line unless the stop
      time and the time step are both given. */
  function TranBody(stop: string, step: string, max: string, min: string): Option<string> {
    if stop != "" && step != "" then Some(Join([".TRAN", step, stop] + OptionalWord(max) + OptionalWord(min)))
    else None
  }

  /** The words separated by single spaces, as an f-string with one space between its fields
      writes them. */
  function Join(ws: seq<string>): string {
    if |ws| == 0 then "" else if |ws| == 1 then ws[0] else ws[0] + " " + Join(ws[1..])
  }

  /** An optional field: present when given. */
  function OptionalWord(x: string): seq<string> {
    if x != "" then [x] else []
  }

  /** `.DC <source> <start> <stop> <step>`, only when all three values are given. */
  function DcBody(source: string, start: string, stop: string, step: string): Option<string> {
    if start != "" && stop != "" && step != "" then Some(Join([".DC", source, start, stop, step]))
    else None
  }

  /** analysis_widgets.get(key, QLineEdit()).text(): an absent field reads as empty. */
  function Field(w: map<string, string>, key: string): string {
    if key in w then w[key] else ""
  }

  /** The analysis line of the lenient variant, without its line end. A DC sweep is over the
      first stimulus, so there is none without stimuli. */
  function AnalysisBody(analysis: string, w: map<string, string>, stims: seq<Stimulus>): Option<string> {
    if analysis == Transient then
      TranBody(Field(w, "Stop Time"), Field(w, "Time Step"), Field(w, "Max Step"), Field(w, "Min Step"))
    else if analysis == Dc && stims != [] then
      DcBody(stims[0].name, Field(w, "Start Value"), Field(w, "Stop Value"), Field(w, "Step"))
    else None
  }

  // ---------------------------------------------------------------------------------------------
  // The whole netlist

  const DefaultHeader: string := "* SPICE Netlist\n"
  const End: string := ".END"

  function Header(imported: string): string {
    if imported != "" then imported else DefaultHeader
  }

  /** generate_netlist of the variant that reads missing fields as defaults. */
  function Netlist(imported: string, stims: seq<Stimulus>, analysis: string, w: map<string, string>): string {
    Header(imported) + StimulusLines(stims) + Terminated(AnalysisBody(analysis, w, stims)) + End
  }

  /** The netlist starts with the imported text, or the default comment line when nothing was
      imported, and always ends with `.END`. */
  lemma NetlistFrame(imported: string, stims: seq<Stimulus>, analysis: string, w: map<string, string>)
    ensures var n := Netlist(imported, stims, analysis, w);
      && (imported != "" ==> imported <= n)
      && (imported == "" ==> DefaultHeader <= n)
      && EndsWith(n, End)
  {
    FrameOf(Header(imported), StimulusLines(stims), Terminated(AnalysisBody(analysis, w, stims)), End);
  }

  lemma FrameOf(h: string, s: string, t: string, e: string)
    ensures h <= h + s + t + e && EndsWith(h + s + t + e, e)
  {
    var n := h + s + t + e;
    assert n[..|h|] == h;
    assert n[|n| - |e|..] == e;
  }

  lemma {:induction false} JoinedAppend(x: seq<Option<string>>, y: seq<Option<string>>)
    ensures Joined(x + y) == Joined(x) + Joined(y)
  {
    if x != [] {
      assert (x + y)[1..] == x[1..] + y;
      JoinedAppend(x[1..], y);
    } else {
      assert x + y == y;
    }
  }

  /** The lines appended for a list are those of its parts, one after the other. */
  lemma StimulusLinesAppend(a: seq<Stimulus>, b: seq<Stimulus>)
    ensures StimulusLines(a + b) == StimulusLines(a) + StimulusLines(b)
  {
    assert Bodies(a + b) == Bodies(a) + Bodies(b);
    JoinedAppend(Bodies(a), Bodies(b));
  }

  // ---------------------------------------------------------------------------------------------
  // Reading the netlist back as lines

  /** The text cut at each line end; a last part without a line end is a line too. */
  function Lines(t: string): seq<string>
    decreases |t|
  {
    if t == [] then []
    else
      var k := IndexOf(t, '\n');
      if k == |t| then [t] else [t[..k]] + Lines(t[k + 1..])
  }

  predicate OneLine(s: string) {
    '\n' !in s
  }

  lemma LinesOfLine(b: string, rest: string)
    requires OneLine(b)
    ensures Lines(b + "\n" + rest) == [b] + Lines(rest)
  {
    var t := b + "\n" + rest;
    assert t[|b|] == '\n';
    assert forall j :: 0 <= j < |b| ==> t[j] == b[j];
    assert t[..|b|] == b && t[|b| + 1..] == rest;
  }

  /** A text that ends with a line end is read as its own lines, then those of what follows. */
  lemma {:induction false} LinesAppend(h: string, rest: string)
    requires h != [] && h[|h| - 1] == '\n'
    ensures Lines(h + rest) == Lines(h) + Lines(rest)
    decreases |h|
  {
    assert h[|h| - 1] in h;
    var k := IndexOf(h, '\n');
    var line, h' := h[..k], h[k + 1..];
    assert OneLine(line);
    SplitAt(h, k, rest);
    assert [h[k]] == "\n";
    LinesOfLine(line, h');
    LinesOfLine(line, h' + rest);
    if h' != [] {
      assert h'[|h'| - 1] == h[|h| - 1];
      LinesAppend(h', rest);
    } else {
      assert h' + rest == rest;
    }
    AppendAssoc([line], Lines(h'), Lines(rest));
  }

  lemma SplitAt<T>(h: seq<T>, k: nat, rest: seq<T>)
    requires k < |h|
    ensures h == h[..k] + [h[k]] + h[k + 1..]
    ensures h + rest == h[..k] + [h[k]] + (h[k + 1..] + rest)
  {
  }

  lemma AppendAssoc<T>(a: seq<T>, b: seq<T>, c: seq<T>)
    ensures a + (b + c) == a + b + c
  {
  }

  /** The lines present, in order. */
  function Present(bs: seq<Option<string>>): seq<string> {
    if bs == [] then []
    else (if bs[0].Some? then [bs[0].value] else []) + Present(bs[1..])
  }

  predicate OptionOneLine(b: Option<string>) {
    b.Some? ==> OneLine(b.value)
  }

  lemma {:induction false} JoinedRead(bs: seq<Option<string>>)
    requires forall i :: 0 <= i < |bs| ==> OptionOneLine(bs[i])
    ensures Lines(Joined(bs)) == Present(bs)
  {
    if bs != [] {
      assert OptionOneLine(bs[0]);
      JoinedRead(bs[1..]);
      if bs[0].Some? {
        LinesOfLine(bs[0].value, Joined(bs[1..]));
      } else {
        assert Joined(bs) == Joined(bs[1..]);
      }
    }
  }

  /** Joined lines end with a line end, unless there are none. */
  lemma {:induction false} JoinedEnd(bs: seq<Option<string>>)
    ensures Joined(bs) == [] || Joined(bs)[|Joined(bs)| - 1] == '\n'
  {
    if bs != [] {
      JoinedEnd(bs[1..]);
      var rest := Joined(bs[1..]);
      if rest == [] {
        assert Joined(bs) == Terminated(bs[0]);
      } else {
        assert Joined(bs)[|Joined(bs)| - 1] == rest[|rest| - 1];
      }
    }
  }

  /** The stimulus lines of known types, in list order. */
  function KnownBodies(stims: seq<Stimulus>): seq<string> {
    Present(Bodies(stims))
  }

  /** Read back as lines, the appended stimulus text is one line per stimulus of a known type,
      in list order; a stimulus of another type adds none. */
  lemma StimulusLinesRead(stims: seq<Stimulus>)
    requires forall i :: 0 <= i < |stims| ==> OptionOneLine(StimulusBody(stims[i]))
    ensures Lines(StimulusLines(stims)) == KnownBodies(stims)
    ensures StimulusLines(stims) == [] || StimulusLines(stims)[|StimulusLines(stims)| - 1] == '\n'
  {
    JoinedRead(Bodies(stims));
    JoinedEnd(Bodies(stims));
  }

  /** A stimulus of a known type gives exactly one line, and one of another type none. */
  lemma OneStimulusRead(s: Stimulus)
    ensures KnownBodies([s]) == if s.kind in SourceTypes then [StimulusBody(s).value] else []
  {
    var bs := Bodies([s]);
    var b := StimulusBody(s);
    assert bs == [b];
    assert bs[1..] == [];
    var first: seq<string> := if b.Some? then [b.value] else [];
    assert Present(bs) == first + Present(bs[1..]);
    assert first + [] == first;
  }

  lemma StimulusLinesCons(stims: seq<Stimulus>)
    requires stims != []
    ensures StimulusLines(stims) == Terminated(StimulusBody(stims[0])) + StimulusLines(stims[1..])
  {
    assert Bodies(stims)[1..] == Bodies(stims[1..]);
  }

  function OptionLines(b: Option<string>): seq<string> {
    if b.Some? then [b.value] else []
  }

  /** Read back as lines, a netlist whose header ends with a line end is the header's lines, one
      line per stimulus of a known type, the analysis line if there is one, and `.END`. */
  lemma NetlistLines(imported: string, stims: seq<Stimulus>, analysis: string, w: map<string, string>)
    requires imported == "" || imported[|imported| - 1] == '\n'
    requires forall i :: 0 <= i < |stims| ==> OptionOneLine(StimulusBody(stims[i]))
    requires OptionOneLine(AnalysisBody(analysis, w, stims))
    ensures Lines(Netlist(imported, stims, analysis, w))
      == Lines(Header(imported)) + KnownBodies(stims) + OptionLines(AnalysisBody(analysis, w, stims)) + [End]
  {
    StimulusLinesRead(stims);
    assert DefaultHeader[|DefaultHeader| - 1] == '\n';
    assert End != [] && OneLine(End);
    LinesOfParts(Header(imported), StimulusLines(stims), AnalysisBody(analysis, w, stims), End);
  }

  lemma LinesOfParts(h: string, sl: string, a: Option<string>, e: string)
    requires h != [] && h[|h| - 1] == '\n'
    requires sl == [] || sl[|sl| - 1] == '\n'
    requires OptionOneLine(a)
    requires e != [] && OneLine(e)
    ensures Lines(h + sl + Terminated(a) + e) == Lines(h) + Lines(sl) + OptionLines(a) + [e]
  {
    var hs := h + sl;
    if sl != [] {
      LinesAppend(h, sl);
      assert hs[|hs| - 1] == sl[|sl| - 1];
    } else {
      assert hs == h && Lines(sl) == [];
    }
    TailLines(hs, a, e);
  }

  /** After a line end, an optional line and a last line without a line end. */
  lemma TailLines(x: string, a: Option<string>, e: string)
    requires x != [] && x[|x| - 1] == '\n'
    requires OptionOneLine(a)
    requires e != [] && OneLine(e)
    ensures Lines(x + Terminated(a) + e) == Lines(x) + OptionLines(a) + [e]
  {
    if a.Some? {
      TailLine(x, a.value, e);
    } else {
      assert x + Terminated(a) + e == x + e;
      LinesAppend(x, e);
      LineAlone(e);
    }
  }

  lemma TailLine(x: string, b: string, e: string)
    requires x != [] && x[|x| - 1] == '\n'
    requires OneLine(b) && e != [] && OneLine(e)
    ensures Lines(x + (b + "\n") + e) == Lines(x) + [b] + [e]
  {
    var te := b + "\n" + e;
    assert x + (b + "\n") + e == x + te;
    LinesAppend(x, te);
    LinesOfLine(b, e);
    LineAlone(e);
    AppendAssoc(Lines(x), [b], [e]);
  }

  lemma LineEnded(b: string)
    requires OneLine(b)
    ensures Lines(b + "\n") == [b]
  {
    LinesOfLine(b, []);
    assert b + "\n" + [] == b + "\n";
  }

  /** A non-empty text without a line end is one line. */
  lemma LineAlone(b: string)
    requires b != [] && OneLine(b)
    ensures Lines(b) == [b]
  {
  }

  // ---------------------------------------------------------------------------------------------
  // Reading the analysis line back as words

  /** A visible ASCII word has no white space in it. */
  lemma VisibleWord(w: string)
    requires forall i :: 0 <= i < |w| ==> '!' <= w[i] <= '~'
    ensures NoSpace(w)
  {
    forall i | 0 <= i < |w| ensures !IsSpace(w[i]) {
      assert !IsSpace(w[i]);
    }
  }

  /** Words joined by single spaces split back into those words. */
  lemma {:induction false} JoinRead(ws: seq<string>)
    requires forall i :: 0 <= i < |ws| ==> ws[i] != [] && NoSpace(ws[i])
    ensures Words(Join(ws)) == ws
  {
    if |ws| == 1 {
      WordsOfWord(ws[0], []);
      assert ws[0] + [] == ws[0];
    } else if |ws| > 1 {
      JoinRead(ws[1..]);
      WordsOfSeparated(ws[0], ' ', Join(ws[1..]));
      assert ws[0] + " " + Join(ws[1..]) == ws[0] + [' '] + Join(ws[1..]);
    }
  }

  /** The `.TRAN` line read back word by word: it is there exactly when the stop time and the
      time step are both given, and holds the time step, the stop time, then the max and the
      min step when given. */
  lemma TranWords(stop: string, step: string, max: string, min: string)
    requires NoSpace(stop) && NoSpace(step) && NoSpace(max) && NoSpace(min)
    ensures TranBody(stop, step, max, min).Some? <==> stop != "" && step != ""
    ensures TranBody(stop, step, max, min).Some? ==>
      Words(TranBody(stop, step, max, min).value) == [".TRAN", step, stop] + OptionalWord(max) + OptionalWord(min)
  {
    if stop != "" && step != "" {
      VisibleWord(".TRAN");
      JoinRead([".TRAN", step, stop] + OptionalWord(max) + OptionalWord(min));
    }
  }

  /** The `.DC` line read back word by word: it is there exactly when the three values are
      given, and names the swept source first. */
  lemma DcWords(source: string, start: string, stop: string, step: string)
    requires source != [] && NoSpace(source) && NoSpace(start) && NoSpace(stop) && NoSpace(step)
    ensures DcBody(source, start, stop, step).Some? <==> start != "" && stop != "" && step != ""
    ensures DcBody(source, start, stop, step).Some? ==>
      Words(DcBody(source, start, stop, step).value) == [".DC", source, start, stop, step]
  {
    if start != "" && stop != "" && step != "" {
      VisibleWord(".DC");
      JoinRead([".DC", source, start, stop, step]);
    }
  }

  // ---------------------------------------------------------------------------------------------
  // The strict variant

  /** Read word by word, a stimulus line names the source, then its node, then ground, whatever
      its type; the source specification follows. */
  lemma BodyWords(kind: string, name: string, node: string, v: seq<string>)
    requires kind in SourceTypes && |v| == |Schema(kind)|
    requires name != [] && NoSpace(name) && node != [] && NoSpace(node)
    ensures Words(Body(kind, name, node, v)) == [name, node, "0"] + Words(SourceSpec(kind, v))
  {
    var spec := SourceSpec(kind, v);
    var ws := [name, node, "0", spec];
    assert ws[1..] == [node, "0", spec] && ws[1..][1..] == ["0", spec] && ["0", spec][1..] == [spec];
    assert Join(["0", spec]) == "0" + [' '] + spec;
    assert Join([node, "0", spec]) == node + [' '] + Join(["0", spec]);
    assert Join(ws) == name + [' '] + Join([node, "0", spec]);
    assert NoSpace("0") by { assert !IsSpace('0'); }
    WordsOfSeparated("0", ' ', spec);
    WordsOfSeparated(node, ' ', Join(["0", spec]));
    WordsOfSeparated(name, ' ', Join([node, "0", spec]));
  }

  /** A DC source (VDC or IDC) with a value reads as DC and that value. */
  lemma DcSourceWords(kind: string, x: string)
    requires kind == Vdc || kind == Idc
    requires x != [] && NoSpace(x)
    ensures Words(SourceSpec(kind, [x])) == ["DC", x]
  {
    assert NoSpace("DC");
    assert SourceSpec(kind, [x]) == "DC" + [' '] + x;
    WordsOfSeparated("DC", ' ', x);
    WordsOfWord(x, []);
    assert x + [] == x;
  }

  /** p[k] for each key in turn: the first key missing raises KeyError. */
  function Lookup(m: map<string, string>, keys: seq<string>): (r: Result<seq<string>>)
    ensures r.Ok? <==> forall i :: 0 <= i < |keys| ==> keys[i] in m
    ensures r.Ok? ==> |r.value| == |keys| && forall i :: 0 <= i < |keys| ==> r.value[i] == m[keys[i]]
    ensures r.KeyError? ==> exists i :: 0 <= i < |keys| && keys[i] == r.key && keys[i] !in m
                                          && forall j :: 0 <= j < i ==> keys[j] in m
  {
    if keys == [] then Ok([])
    else if keys[0] !in m then KeyError(keys[0])
    else match Lookup(m, keys[1..])
      case KeyError(k) =>
        var i :| 0 <= i < |keys[1..]| && keys[1..][i] == k && keys[1..][i] !in m
                 && forall j :: 0 <= j < i ==> keys[1..][j] in m;
        assert keys[i + 1] == k;
        KeyError(k)
      case Ok(v) => Ok([m[keys[0]]] + v)
  }

  /** The line of one stimulus in the strict variant, with its line end. */
  function StrictLine(s: Stimulus): Result<string> {
    if s.kind in SourceTypes then
      match Lookup(s.params, Schema(s.kind))
      case KeyError(k) => KeyError(k)
      case Ok(v) => Ok(Body(s.kind, s.name, s.node, v) + "\n")
    else Ok("")
  }

  function StrictLines(stims: seq<Stimulus>): Result<string> {
    if stims == [] then Ok("")
    else match StrictLine(stims[0])
      case KeyError(k) => KeyError(k)
      case Ok(line) =>
        match StrictLines(stims[1..])
        case KeyError(k) => KeyError(k)
        case Ok(rest) => Ok(line + rest)
  }

  /** The analysis line in the strict variant: analysis_widgets["..."] for every field of the
      type, read before any test. */
  function StrictAnalysis(analysis: string, w: map<string, string>, stims: seq<Stimulus>): Result<string> {
    if analysis == Transient then
      match Lookup(w, AnalysisKeys(Transient))
      case KeyError(k) => KeyError(k)
      case Ok(v) => Ok(Terminated(TranBody(v[0], v[1], v[2], v[3])))
    else if analysis == Dc && stims != [] then
      match Lookup(w, AnalysisKeys(Dc))
      case KeyError(k) => KeyError(k)
      case Ok(v) => Ok(Terminated(DcBody(stims[0].name, v[0], v[1], v[2])))
    else Ok("")
  }

  /** generate_netlist of the variant that indexes with []. */
  function StrictNetlist(imported: string, stims: seq<Stimulus>, analysis: string, w: map<string, string>): Result<string> {
    match StrictLines(stims)
    case KeyError(k) => KeyError(k)
    case Ok(lines) =>
      match StrictAnalysis(analysis, w, stims)
      case KeyError(k) => KeyError(k)
      case Ok(a) => Ok(Header(imported) + lines + a + End)
  }

  /** A record that holds every parameter of its type's schema. */
  predicate Conforms(s: Stimulus) {
    forall k :: k in Schema(s.kind) ==> k in s.params
  }

  /** The analysis fields that the strict variant reads are all there. */
  predicate AnalysisReady(analysis: string, w: map<string, string>, stims: seq<Stimulus>) {
    (analysis == Transient || (analysis == Dc && stims != [])) ==>
      forall k :: k in AnalysisKeys(analysis) ==> k in w
  }

  lemma StrictLineAgrees(s: Stimulus)
    ensures StrictLine(s).Ok? <==> Conforms(s)
    ensures Conforms(s) ==> StrictLine(s) == Ok(Terminated(StimulusBody(s)))
  {
    var keys := Schema(s.kind);
    if Conforms(s) {
      assert forall i :: 0 <= i < |keys| ==> keys[i] in s.params;
      if s.kind in SourceTypes {
        assert Lookup(s.params, keys).value == LenientValues(s);
      }
    } else {
      var k :| k in keys && k !in s.params;
    }
  }

  lemma {:induction false} StrictLinesAgree(stims: seq<Stimulus>)
    ensures StrictLines(stims).Ok? <==> forall i :: 0 <= i < |stims| ==> Conforms(stims[i])
    ensures StrictLines(stims).Ok? ==> StrictLines(stims).value == StimulusLines(stims)
  {
    if stims != [] {
      StimulusLinesCons(stims);
      StrictLineAgrees(stims[0]);
      StrictLinesAgree(stims[1..]);
      assert forall i :: 1 <= i < |stims| ==> stims[i] == stims[1..][i - 1];
    }
  }

  lemma StrictAnalysisAgrees(analysis: string, w: map<string, string>, stims: seq<Stimulus>)
    ensures StrictAnalysis(analysis, w, stims).Ok? <==> AnalysisReady(analysis, w, stims)
    ensures AnalysisReady(analysis, w, stims) ==>
      StrictAnalysis(analysis, w, stims) == Ok(Terminated(AnalysisBody(analysis, w, stims)))
  {
    var keys := AnalysisKeys(analysis);
    if analysis == Transient || (analysis == Dc && stims != []) {
      if AnalysisReady(analysis, w, stims) {
        assert forall i :: 0 <= i < |keys| ==> keys[i] in w;
      } else {
        var k :| k in keys && k !in w;
      }
    }
  }

  /** The strict variant writes the same netlist as the lenient one whenever every record holds
      its type's parameters and the analysis fields are there, and raises KeyError exactly when
      one of them is missing. */
  lemma StrictAgrees(imported: string, stims: seq<Stimulus>, analysis: string, w: map<string, string>)
    ensures StrictNetlist(imported, stims, analysis, w).Ok?
      <==> (forall i :: 0 <= i < |stims| ==> Conforms(stims[i])) && AnalysisReady(analysis, w, stims)
    ensures StrictNetlist(imported, stims, analysis, w).Ok? ==>
      StrictNetlist(imported, stims, analysis, w).value == Netlist(imported, stims, analysis, w)
  {
    StrictLinesAgree(stims);
    StrictAnalysisAgrees(analysis, w, stims);
  }

  /** A VAC record without a phase: the lenient variant writes phase 0, the strict one raises
      KeyError('Phase'). */
  lemma VacWithoutPhase(name: string, node: string, amp: string, freq: string)
    ensures var s := Stimulus(Vac, name, node, map["Amplitude" := amp, "Frequency" := freq]);
      && StimulusBody(s) == Some(Body(Vac, name, node, [amp, freq, "0"]))
      && StrictLine(s) == KeyError("Phase")
  {
    var s := Stimulus(Vac, name, node, map["Amplitude" := amp, "Frequency" := freq]);
    assert "Phase" !in s.params;
    assert LenientValues(s) == [amp, freq, "0"];
  }
}
