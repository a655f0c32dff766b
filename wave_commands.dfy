/** The text commands the wave-viewer client sends to BeSpice Wave: one fixed template per helper,
    the line framing of the wire protocol, and a reading of a command line back into its words
    (bare words and double-quoted arguments) that shows which arguments a template carries. */
module WaveCommands {
  import opened Text

  // ---------------------------------------------------------------------------------------------
  // Templates

  const StatusCommand: string := "get_status"

  const SpecializationVerb: string := "set_customer_specialization"
  const OpenFileVerb: string := "open_file"
  const EquivalentNetsVerb: string := "create_equivalent_nets"
  const LinkToSchematicVerb: string := "use_file_for_link_to_schematic"
  const AddCurveVerb: string := "add_curve_to_plot_by_name"
  const AddVoltageVerb: string := "add_voltage_on_spice_node_to_plot"
  const AddCurrentVerb: string := "add_current_through_spice_device_to_plot"
  const AddPlotVerb: string := "add_plot"

  /** Two pieces of a command line with one space between them. */
  function Spaced(a: string, b: string): string {
    a + " " + b
  }

  /** Quotes an argument the way the templates do: no escaping of an embedded double quote. */
  function Quote(a: string): string {
    "\"" + a + "\""
  }

  /** `set_customer_specialization "<tag>"` */
  function SpecializationCommand(spec: string): string {
    Spaced(SpecializationVerb, Quote(spec))
  }

  /** `open_file "<waveform file>"` */
  function OpenFileCommand(waveformFile: string): string {
    Spaced(OpenFileVerb, Quote(waveformFile))
  }

  /** `create_equivalent_nets "<waveform file>" "<netlist file>"` */
  function EquivalentNetsCommand(waveformFile: string, netlistFile: string): string {
    Spaced(EquivalentNetsVerb, Spaced(Quote(waveformFile), Quote(netlistFile)))
  }

  /** `use_file_for_link_to_schematic "<waveform file>" 1` */
  function LinkToSchematicCommand(waveformFile: string): string {
    Spaced(LinkToSchematicVerb, Spaced(Quote(waveformFile), "1"))
  }

  /** The shape shared by the three curve helpers: `<verb> * "" "<name>" 0 <color>`; an empty
      color leaves the line ending in "0 ". */
  function CurveCommand(verb: string, name: string, color: string): string {
    Spaced(verb, Spaced("*", Spaced(Quote(""), Spaced(Quote(name), Spaced("0", color)))))
  }

  function AddCurveCommand(curveName: string, color: string): string {
    CurveCommand(AddCurveVerb, curveName, color)
  }

  function AddVoltageCommand(nodeName: string, color: string): string {
    CurveCommand(AddVoltageVerb, nodeName, color)
  }

  function AddCurrentCommand(deviceName: string, color: string): string {
    CurveCommand(AddCurrentVerb, deviceName, color)
  }

  /** `add_plot "<plot name>" "<plot type>" <flag new page> <flag make visible>`, both flags 1. */
  function AddPlotCommand(plotName: string, plotType: string): string {
    Spaced(AddPlotVerb, Spaced(Quote(plotName), Spaced(Quote(plotType), Spaced("1", "1"))))
  }

  /** The commands openFile issues, in order: the equivalent-nets command only when a netlist file
      is given. */
  function OpenFileCommands(waveformFile: string, netlistFile: string): (cmds: seq<string>)
    ensures |cmds| == if netlistFile == "" then 2 else 3
    ensures cmds[0] == OpenFileCommand(waveformFile)
    ensures cmds[|cmds| - 1] == LinkToSchematicCommand(waveformFile)
    ensures netlistFile != "" ==> cmds[1] == EquivalentNetsCommand(waveformFile, netlistFile)
  {
    [OpenFileCommand(waveformFile)]
    + (if netlistFile != "" then [EquivalentNetsCommand(waveformFile, netlistFile)] else [])
    + [LinkToSchematicCommand(waveformFile)]
  }

  /** A verb of the protocol: one ASCII word without spaces that does not start with a double quote
      or white space. */
  predicate IsVerb(v: string) {
    IsBareWord(v) && IsAscii(v) && !IsSpace(v[0])
  }

  /** A word of lower-case letters and underscores that starts with a letter, as every verb of the
      protocol is. */
  predicate IsSnakeWord(v: string) {
    |v| > 0 && 'a' <= v[0] <= 'z' && forall i :: 0 <= i < |v| ==> 'a' <= v[i] <= 'z' || v[i] == '_'
  }

  lemma SnakeWordIsVerb(v: string)
    requires IsSnakeWord(v)
    ensures IsVerb(v)
  {
    assert !IsSpace(v[0]);
  }

  // ---------------------------------------------------------------------------------------------
  // Line framing

  /** The text written to the socket for a command: the command stripped, plus one newline. */
  function WireLine(cmd: string): string {
    Strip(cmd) + "\n"
  }

  /** A command without a newline travels as exactly one protocol line. */
  lemma WireLineIsOneLine(cmd: string)
    requires '\n' !in cmd
    ensures |WireLine(cmd)| >= 1 && WireLine(cmd)[|WireLine(cmd)| - 1] == '\n'
    ensures forall i :: 0 <= i < |WireLine(cmd)| - 1 ==> WireLine(cmd)[i] != '\n'
  {
    var r := Strip(cmd);
    var k := StripIsInfix(cmd);
    forall i | 0 <= i < |r| ensures WireLine(cmd)[i] != '\n' {
      assert WireLine(cmd)[i] == r[i] == cmd[k + i];
    }
  }

  /** A command that starts and ends with a non-space character is sent unchanged. */
  lemma WireLineOfTrimmed(cmd: string)
    requires cmd == [] || (!IsSpace(cmd[0]) && !IsSpace(cmd[|cmd| - 1]))
    ensures WireLine(cmd) == cmd + "\n"
  {
    TrimUnchanged(cmd, IsSpace);
  }

  /** A verb followed by arguments that end in a non-space character is sent unchanged. */
  lemma WireLineOfVerbLine(verb: string, args: string)
    requires IsVerb(verb) && args != [] && !IsSpace(args[|args| - 1])
    ensures WireLine(Spaced(verb, args)) == Spaced(verb, args) + "\n"
  {
    var c := Spaced(verb, args);
    assert c[0] == verb[0] && c[|c| - 1] == args[|args| - 1];
    WireLineOfTrimmed(c);
  }

  lemma SpacedAscii(a: string, b: string)
    ensures IsAscii(Spaced(a, b)) <==> IsAscii(a) && IsAscii(b)
  {
    AsciiConcat(a + " ", b);
    AsciiConcat(a, " ");
  }

  /** The line of a verb is sendable exactly when its arguments are ASCII. */
  lemma VerbLineEncodable(verb: string, args: string)
    requires IsVerb(verb) && args != [] && !IsSpace(args[|args| - 1])
    ensures IsAscii(WireLine(Spaced(verb, args))) <==> IsAscii(args)
  {
    WireLineOfVerbLine(verb, args);
    AsciiConcat(Spaced(verb, args), "\n");
    SpacedAscii(verb, args);
  }

  /** A quoted argument is one or more characters long and ends in a double quote. */
  lemma QuoteEnds(a: string)
    ensures |Quote(a)| >= 2 && Quote(a)[|Quote(a)| - 1] == '"' && !IsSpace('"')
  {
    assert !IsSpace('"');
  }

  lemma QuoteAscii(a: string)
    ensures IsAscii(Quote(a)) <==> IsAscii(a)
  {
    AsciiConcat("\"" + a, "\"");
    AsciiConcat("\"", a);
  }

  /** The set-up command is sendable exactly when the specialization is ASCII. */
  lemma SpecializationEncodable(spec: string)
    ensures IsAscii(WireLine(SpecializationCommand(spec))) <==> IsAscii(spec)
  {
    SnakeWordIsVerb(SpecializationVerb);
    QuoteEnds(spec);
    VerbLineEncodable(SpecializationVerb, Quote(spec));
    QuoteAscii(spec);
  }

  /** A waveform file name that is not ASCII makes the open_file line unencodable: the client's
      strict ASCII encoding then raises. */
  lemma NonAsciiFileNameIsNotEncodable(waveformFile: string)
    requires !IsAscii(waveformFile)
    ensures !IsAscii(WireLine(OpenFileCommand(waveformFile)))
  {
    SnakeWordIsVerb(OpenFileVerb);
    QuoteEnds(waveformFile);
    VerbLineEncodable(OpenFileVerb, Quote(waveformFile));
    QuoteAscii(waveformFile);
  }

  lemma StatusEncodable()
    ensures IsAscii(WireLine(StatusCommand))
  {
    assert !IsSpace('g');
    WireLineOfTrimmed(StatusCommand);
  }

  /** Appending to the last piece of a spaced line appends to the line. */
  lemma SpacedAppend(a: string, b: string, c: string)
    ensures Spaced(a, b + c) == Spaced(a, b) + c
  {
  }

  /** The curve helpers called without a color end in "0 "; that trailing space is stripped. */
  lemma CurveWithoutColor(verb: string, name: string)
    requires IsVerb(verb)
    ensures Strip(CurveCommand(verb, name, ""))
         == Spaced(verb, Spaced("*", Spaced(Quote(""), Spaced(Quote(name), "0"))))
  {
    var body := Spaced(verb, Spaced("*", Spaced(Quote(""), Spaced(Quote(name), "0"))));
    assert Spaced("0", "") == "0" + " ";
    SpacedAppend(Quote(name), "0", " ");
    SpacedAppend(Quote(""), Spaced(Quote(name), "0"), " ");
    SpacedAppend("*", Spaced(Quote(""), Spaced(Quote(name), "0")), " ");
    SpacedAppend(verb, Spaced("*", Spaced(Quote(""), Spaced(Quote(name), "0"))), " ");
    assert CurveCommand(verb, name, "") == body + " ";
    assert !IsSpace('0');
    assert body[0] == verb[0] && body[|body| - 1] == '0';
    StripTrailingSpace(body);
  }

  /** One space after a line with no white space at its ends is what strip removes. */
  lemma StripTrailingSpace(body: string)
    requires body != [] && !IsSpace(body[0]) && !IsSpace(body[|body| - 1])
    ensures Strip(body + " ") == body
  {
    var c := body + " ";
    assert c[0] == body[0] && c[..|c| - 1] == body;
    TrimUnchanged(body, IsSpace);
  }

  // ---------------------------------------------------------------------------------------------
  // Reading a command line back into words

  datatype Word = Bare(text: string) | Quoted(text: string)

  /** The text before the first `stop` character, and the rest of `s` from that character on
      (empty when `s` has no `stop`). */
  function Until(s: string, stop: char): (r: (string, string))
    ensures |r.1| <= |s|
    ensures s != [] && s[0] != stop ==> |r.1| < |s|
    decreases |s|
  {
    if s == [] || s[0] == stop then ([], s)
    else
      var (w, rest) := Until(s[1..], stop);
      ([s[0]] + w, rest)
  }

  /** Scanning a word free of `stop`, followed by `stop` or nothing, gives back the word. */
  lemma {:induction false} UntilStop(w: string, stop: char, rest: string)
    requires stop !in w && (rest == [] || rest[0] == stop)
    ensures Until(w + rest, stop) == (w, rest)
    decreases |w|
  {
    if w == [] {
      assert w + rest == rest;
    } else {
      assert (w + rest)[1..] == w[1..] + rest;
      UntilStop(w[1..], stop, rest);
      assert [w[0]] + w[1..] == w;
    }
  }

  /** Splits a command line at spaces; a double quote opens an argument that runs to the next
      double quote and may contain spaces. */
  function Tokenize(s: string): seq<Word>
    decreases |s|
  {
    if s == [] then []
    else if s[0] == ' ' then Tokenize(s[1..])
    else if s[0] == '"' then
      var (arg, rest) := Until(s[1..], '"');
      [Quoted(arg)] + (if rest == [] then [] else Tokenize(rest[1..]))
    else
      var (w, rest) := Until(s, ' ');
      [Bare(w)] + Tokenize(rest)
  }

  predicate IsBareWord(w: string) {
    |w| > 0 && w[0] != '"' && ' ' !in w
  }

  lemma TokenizeBare(w: string, rest: string)
    requires IsBareWord(w)
    requires rest == [] || rest[0] == ' '
    ensures Tokenize(w + rest) == [Bare(w)] + Tokenize(rest)
  {
    UntilStop(w, ' ', rest);
    assert (w + rest)[0] == w[0];
  }

  lemma TokenizeQuoted(a: string, rest: string)
    requires '"' !in a
    requires rest == [] || rest[0] == ' '
    ensures Tokenize(Quote(a) + rest) == [Quoted(a)] + Tokenize(rest)
  {
    var s := Quote(a) + rest;
    var closing := "\"" + rest;
    assert s[1..] == a + closing;
    UntilStop(a, '"', closing);
    assert closing[1..] == rest;
  }

  lemma TokenizeSpace(rest: string)
    ensures Tokenize(" " + rest) == Tokenize(rest)
  {
    assert (" " + rest)[1..] == rest;
  }

  /** A bare word in front of a spaced line is read as that word. */
  lemma TokenizeSpacedBare(w: string, rest: string)
    requires IsBareWord(w)
    ensures Tokenize(Spaced(w, rest)) == [Bare(w)] + Tokenize(rest)
  {
    assert Spaced(w, rest) == w + (" " + rest);
    TokenizeBare(w, " " + rest);
    TokenizeSpace(rest);
  }

  /** A quoted argument in front of a spaced line is read as that argument. */
  lemma TokenizeSpacedQuoted(a: string, rest: string)
    requires '"' !in a
    ensures Tokenize(Spaced(Quote(a), rest)) == [Quoted(a)] + Tokenize(rest)
  {
    assert Spaced(Quote(a), rest) == Quote(a) + (" " + rest);
    TokenizeQuoted(a, " " + rest);
    TokenizeSpace(rest);
  }

  lemma TokenizeLastBare(w: string)
    requires IsBareWord(w)
    ensures Tokenize(w) == [Bare(w)]
  {
    TokenizeBare(w, "");
    assert w + "" == w;
  }

  lemma TokenizeLastQuoted(a: string)
    requires '"' !in a
    ensures Tokenize(Quote(a)) == [Quoted(a)]
  {
    TokenizeQuoted(a, "");
    assert Quote(a) + "" == Quote(a);
  }

  /** How a word appears on a command line. */
  function WordText(w: Word): string {
    match w
    case Bare(t) => t
    case Quoted(t) => Quote(t)
  }

  /** A word that reads back as itself: a bare word without spaces that does not start with a
      double quote, or a quoted argument without a double quote inside. */
  predicate WellFormed(w: Word) {
    match w
    case Bare(t) => IsBareWord(t)
    case Quoted(t) => '"' !in t
  }

  /** The words joined by single spaces. */
  function Render(ws: seq<Word>): string
    decreases |ws|
  {
    if ws == [] then ""
    else if |ws| == 1 then WordText(ws[0])
    else Spaced(WordText(ws[0]), Render(ws[1..]))
  }

  /** A well-formed word alone on a line reads back as itself. */
  lemma TokenizeWord(w: Word)
    requires WellFormed(w)
    ensures Tokenize(WordText(w)) == [w]
  {
    match w
    case Bare(t) => TokenizeLastBare(t);
    case Quoted(t) => TokenizeLastQuoted(t);
  }

  /** A well-formed word in front of a spaced line reads back as itself. */
  lemma TokenizeSpacedWord(w: Word, rest: string)
    requires WellFormed(w)
    ensures Tokenize(Spaced(WordText(w), rest)) == [w] + Tokenize(rest)
  {
    match w
    case Bare(t) => TokenizeSpacedBare(t, rest);
    case Quoted(t) => TokenizeSpacedQuoted(t, rest);
  }

  /** Reading a rendered line gives back its words. */
  lemma {:induction false} TokenizeRender(ws: seq<Word>)
    requires forall k :: 0 <= k < |ws| ==> WellFormed(ws[k])
    ensures Tokenize(Render(ws)) == ws
    decreases |ws|
  {
    if |ws| == 1 {
      TokenizeWord(ws[0]);
    } else if |ws| > 1 {
      TokenizeRender(ws[1..]);
      TokenizeSpacedWord(ws[0], Render(ws[1..]));
      assert [ws[0]] + ws[1..] == ws;
    }
  }

  /** The open_file line carries exactly the verb and the file name, when the name has no
      double quote. */
  lemma OpenFileReadsBack(waveformFile: string)
    requires '"' !in waveformFile
    ensures Tokenize(OpenFileCommand(waveformFile)) == [Bare(OpenFileVerb), Quoted(waveformFile)]
  {
    SnakeWordIsVerb(OpenFileVerb);
    TokenizeSpacedBare(OpenFileVerb, Quote(waveformFile));
    TokenizeLastQuoted(waveformFile);
  }

  /** The specialization line carries exactly the verb and the tag. */
  lemma SpecializationReadsBack(spec: string)
    requires '"' !in spec
    ensures Tokenize(SpecializationCommand(spec)) == [Bare(SpecializationVerb), Quoted(spec)]
  {
    SnakeWordIsVerb(SpecializationVerb);
    TokenizeSpacedBare(SpecializationVerb, Quote(spec));
    TokenizeLastQuoted(spec);
  }

  /** The equivalent-nets line carries the waveform file and then the netlist file. */
  lemma EquivalentNetsReadsBack(waveformFile: string, netlistFile: string)
    requires '"' !in waveformFile && '"' !in netlistFile
    ensures Tokenize(EquivalentNetsCommand(waveformFile, netlistFile))
         == [Bare(EquivalentNetsVerb), Quoted(waveformFile), Quoted(netlistFile)]
  {
    var args := Spaced(Quote(waveformFile), Quote(netlistFile));
    TokenizeLastQuoted(netlistFile);
    TokenizeSpacedQuoted(waveformFile, Quote(netlistFile));
    assert Tokenize(args) == [Quoted(waveformFile), Quoted(netlistFile)];
    SnakeWordIsVerb(EquivalentNetsVerb);
    TokenizeSpacedBare(EquivalentNetsVerb, args);
  }

  /** The link-to-schematic line carries the waveform file and the flag 1. */
  lemma LinkToSchematicReadsBack(waveformFile: string)
    requires '"' !in waveformFile
    ensures Tokenize(LinkToSchematicCommand(waveformFile))
         == [Bare(LinkToSchematicVerb), Quoted(waveformFile), Bare("1")]
  {
    var args := Spaced(Quote(waveformFile), "1");
    TokenizeLastBare("1");
    TokenizeSpacedQuoted(waveformFile, "1");
    assert Tokenize(args) == [Quoted(waveformFile), Bare("1")];
    SnakeWordIsVerb(LinkToSchematicVerb);
    TokenizeSpacedBare(LinkToSchematicVerb, args);
  }

  /** The new-plot line carries the plot name, the plot type and the two flags. */
  lemma AddPlotReadsBack(plotName: string, plotType: string)
    requires '"' !in plotName && '"' !in plotType
    ensures Tokenize(AddPlotCommand(plotName, plotType))
         == [Bare(AddPlotVerb), Quoted(plotName), Quoted(plotType), Bare("1"), Bare("1")]
  {
    var flags := Spaced("1", "1");
    TokenizeLastBare("1");
    TokenizeSpacedBare("1", "1");
    assert Tokenize(flags) == [Bare("1"), Bare("1")];
    var t2 := Spaced(Quote(plotType), flags);
    TokenizeSpacedQuoted(plotType, flags);
    assert Tokenize(t2) == [Quoted(plotType), Bare("1"), Bare("1")];
    var t1 := Spaced(Quote(plotName), t2);
    TokenizeSpacedQuoted(plotName, t2);
    assert Tokenize(t1) == [Quoted(plotName), Quoted(plotType), Bare("1"), Bare("1")];
    SnakeWordIsVerb(AddPlotVerb);
    TokenizeSpacedBare(AddPlotVerb, t1);
  }

  /** The words of a curve line after the name: the flag 0 and, when one is given, the color. */
  function CurveTailWords(color: string): seq<Word> {
    [Bare("0")] + (if color == "" then [] else [Bare(color)])
  }

  /** The words of a curve line: the verb, the wildcard, an empty quoted argument, the curve
      name, the flag 0 and, when one is given, the color. */
  function CurveWords(verb: string, name: string, color: string): seq<Word> {
    [Bare(verb)] + ([Bare("*")] + ([Quoted("")] + ([Quoted(name)] + CurveTailWords(color))))
  }

  /** The stripped end of a curve line: the flag 0, then the color when one is given. */
  function CurveTail(color: string): string {
    if color == "" then "0" else Spaced("0", color)
  }

  lemma TokenizeCurveTail(color: string)
    requires color == "" || IsBareWord(color)
    ensures Tokenize(CurveTail(color)) == CurveTailWords(color)
  {
    if color == "" {
      TokenizeLastBare("0");
    } else {
      TokenizeSpacedBare("0", color);
      TokenizeLastBare(color);
    }
  }

  /** A curve line without its trailing white space. */
  lemma StripCurveCommand(verb: string, name: string, color: string)
    requires IsVerb(verb)
    requires color == "" || !IsSpace(color[|color| - 1])
    ensures Strip(CurveCommand(verb, name, color))
         == Spaced(verb, Spaced("*", Spaced(Quote(""), Spaced(Quote(name), CurveTail(color)))))
  {
    if color == "" {
      CurveWithoutColor(verb, name);
    } else {
      var t1 := Spaced("*", Spaced(Quote(""), Spaced(Quote(name), Spaced("0", color))));
      WireLineOfVerbLine(verb, t1);
      assert Strip(CurveCommand(verb, name, color)) + "\n" == CurveCommand(verb, name, color) + "\n";
    }
  }

  /** The stripped curve line, read as words. */
  lemma TokenizeCurveLine(verb: string, name: string, color: string)
    requires IsBareWord(verb) && '"' !in name
    requires color == "" || IsBareWord(color)
    ensures Tokenize(Spaced(verb, Spaced("*", Spaced(Quote(""), Spaced(Quote(name), CurveTail(color))))))
         == CurveWords(verb, name, color)
  {
    TokenizeCurveTail(color);
    var t3 := Spaced(Quote(name), CurveTail(color));
    var t2 := Spaced(Quote(""), t3);
    var t1 := Spaced("*", t2);
    TokenizeSpacedQuoted(name, CurveTail(color));
    TokenizeSpacedQuoted("", t3);
    TokenizeSpacedBare("*", t2);
    TokenizeSpacedBare(verb, t1);
  }

  /** What travels for a curve line (its stripped text) reads back as its words. Without a color
      the template ends in "0 ", and it is the strip that removes that space. */
  lemma CurveReadsBack(verb: string, name: string, color: string)
    requires IsVerb(verb) && '"' !in name
    requires color == "" || (IsBareWord(color) && !IsSpace(color[|color| - 1]))
    ensures Tokenize(Strip(CurveCommand(verb, name, color))) == CurveWords(verb, name, color)
  {
    StripCurveCommand(verb, name, color);
    TokenizeCurveLine(verb, name, color);
  }

  /** Without escaping, a double quote inside a file name ends the quoted argument early: the
      name `a" b` is read as the argument `a` followed by the bare word `b"`. */
  lemma QuoteInFileNameSplitsIt(a: string, b: string)
    requires '"' !in a && IsBareWord(b)
    ensures Tokenize(OpenFileCommand(a + "\" " + b)) == [Bare(OpenFileVerb), Quoted(a), Bare(b + "\"")]
  {
    var arg := Quote(a + "\" " + b);
    assert arg == Spaced(Quote(a), b + "\"");
    assert IsBareWord(b + "\"") by {
      assert forall i :: 0 <= i < |b| ==> (b + "\"")[i] == b[i];
    }
    TokenizeLastBare(b + "\"");
    TokenizeSpacedQuoted(a, b + "\"");
    assert Tokenize(arg) == [Quoted(a), Bare(b + "\"")];
    SnakeWordIsVerb(OpenFileVerb);
    TokenizeSpacedBare(OpenFileVerb, arg);
  }
}
