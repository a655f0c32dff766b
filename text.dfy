/** Text and byte-string primitives of Python that the models rely on: str.strip and bytes.strip,
    str.split(), str.replace, str.endswith, the `in` test on byte strings, ASCII encoding,
    "{0}".format(n) of a non-negative integer and int() of a decimal literal. */
module Text {

  datatype Option<+T> = None | Some(value: T)

  /** One byte of a Python `bytes` object. */
  newtype byte = x: int | 0 <= x < 256

  /** The characters for which Python's str.isspace() is true: the space, \t through \r, the
      information separators \x1c through \x1f, U+0085, U+00A0, U+1680, U+2000 through U+200A,
      U+2028, U+2029, U+202F, U+205F and U+3000. */
  predicate IsSpace(c: char) {
    || c == ' '
    || '\t' <= c <= '\r'
    || '\U{1C}' <= c <= '\U{1F}'
    || c == '\U{85}' || c == '\U{A0}' || c == '\U{1680}'
    || '\U{2000}' <= c <= '\U{200A}'
    || c == '\U{2028}' || c == '\U{2029}' || c == '\U{202F}' || c == '\U{205F}' || c == '\U{3000}'
  }

  /** The bytes that bytes.strip() removes: space, \t, \n, \v, \f and \r. */
  predicate IsAsciiSpaceByte(b: byte) {
    b == 32 || 9 <= b <= 13
  }

  predicate IsDigit(c: char) {
    '0' <= c <= '9'
  }

  /** True when str.encode('ascii', 'strict') succeeds. */
  predicate IsAscii(s: string) {
    forall i :: 0 <= i < |s| ==> s[i] as int < 128
  }

  lemma AsciiConcat(a: string, b: string)
    ensures IsAscii(a + b) <==> IsAscii(a) && IsAscii(b)
  {
    if IsAscii(a) && IsAscii(b) {
      forall i | 0 <= i < |a + b| ensures (a + b)[i] as int < 128 {
        if i >= |a| { assert (a + b)[i] == b[i - |a|]; }
      }
    }
    if IsAscii(a + b) {
      forall i | 0 <= i < |a| ensures a[i] as int < 128 {
        assert (a + b)[i] == a[i];
      }
      forall i | 0 <= i < |b| ensures b[i] as int < 128 {
        assert (a + b)[|a| + i] == b[i];
      }
    }
  }

  // ---------------------------------------------------------------------------------------------
  // Stripping

  /** Drops the leading elements that satisfy `space`. */
  function TrimLeft<T>(s: seq<T>, space: T -> bool): (r: seq<T>)
    ensures |r| <= |s| && r == s[|s| - |r|..]
    ensures forall i :: 0 <= i < |s| - |r| ==> space(s[i])
    ensures r == [] || !space(r[0])
  {
    if |s| > 0 && space(s[0]) then
      var r := TrimLeft(s[1..], space);
      assert s[1..][|s| - 1 - |r|..] == s[|s| - |r|..];
      r
    else s
  }

  /** Drops the trailing elements that satisfy `space`. */
  function TrimRight<T>(s: seq<T>, space: T -> bool): (r: seq<T>)
    ensures |r| <= |s| && r == s[..|r|]
    ensures forall i :: |r| <= i < |s| ==> space(s[i])
    ensures r == [] || !space(r[|r| - 1])
  {
    if |s| > 0 && space(s[|s| - 1]) then TrimRight(s[..|s| - 1], space) else s
  }

  /** Number of leading elements that satisfy `space`. */
  function Leading<T>(s: seq<T>, space: T -> bool): nat {
    |s| - |TrimLeft(s, space)|
  }

  /** Both ends trimmed: leading elements that satisfy `space` are dropped first, then trailing
      ones. */
  function Trim<T>(s: seq<T>, space: T -> bool): (r: seq<T>)
    ensures |r| <= |s|
    decreases |s|
  {
    if |s| > 0 && space(s[0]) then Trim(s[1..], space)
    else if |s| > 0 && space(s[|s| - 1]) then Trim(s[..|s| - 1], space)
    else s
  }

  /** The reference for Trim: the left end trimmed, then the right end. The result is the infix of
      `s` that starts at its first non-space element and ends at its last one; everything cut
      away is space. */
  function TrimEnds<T>(s: seq<T>, space: T -> bool): (r: seq<T>)
    ensures Leading(s, space) + |r| <= |s|
    ensures r == s[Leading(s, space)..Leading(s, space) + |r|]
    ensures forall i :: 0 <= i < Leading(s, space) ==> space(s[i])
    ensures forall i :: Leading(s, space) + |r| <= i < |s| ==> space(s[i])
    ensures r == [] || (!space(r[0]) && !space(r[|r| - 1]))
  {
    var t := TrimLeft(s, space);
    var r := TrimRight(t, space);
    assert r != [] ==> r[0] == t[0];
    r
  }

  lemma {:induction false} TrimLeftThenRight<T>(s: seq<T>, space: T -> bool)
    ensures Trim(s, space) == TrimRight(TrimLeft(s, space), space)
    decreases |s|
  {
    if |s| > 0 && space(s[0]) {
      TrimLeftThenRight(s[1..], space);
    } else if |s| > 0 && space(s[|s| - 1]) {
      var u := s[..|s| - 1];
      TrimLeftThenRight(u, space);
      assert TrimLeft(u, space) == u;
      assert TrimLeft(s, space) == s;
    }
  }

  /** Trim agrees with its reference. */
  lemma TrimSpec<T>(s: seq<T>, space: T -> bool)
    ensures Trim(s, space) == TrimEnds(s, space)
  {
    TrimLeftThenRight(s, space);
  }

  /** Python's str.strip(). */
  function Strip(s: string): string {
    Trim(s, IsSpace)
  }

  /** Python's bytes.strip(). */
  function StripBytes(s: seq<byte>): seq<byte> {
    Trim(s, IsAsciiSpaceByte)
  }

  /** A sequence with no space at either end is left unchanged by trimming. */
  lemma TrimUnchanged<T>(s: seq<T>, space: T -> bool)
    requires s == [] || (!space(s[0]) && !space(s[|s| - 1]))
    ensures Trim(s, space) == s
  {
  }

  /** A stripped string is an infix of the original. */
  lemma StripIsInfix(s: string) returns (k: nat)
    ensures k + |Strip(s)| <= |s| && Strip(s) == s[k..k + |Strip(s)|]
  {
    TrimSpec(s, IsSpace);
    k := Leading(s, IsSpace);
  }

  /** Stripping twice is stripping once. */
  lemma StripIdempotent(s: string)
    ensures Strip(Strip(s)) == Strip(s)
  {
    TrimSpec(s, IsSpace);
    TrimUnchanged(Strip(s), IsSpace);
  }

  // ---------------------------------------------------------------------------------------------
  // Searching, prefixes and suffixes

  /** Index of the first element satisfying `p`, or |s| when there is none. */
  function IndexWhere<T>(s: seq<T>, p: T -> bool): (i: nat)
    ensures i <= |s|
    ensures i < |s| ==> p(s[i])
    ensures forall j :: 0 <= j < i ==> !p(s[j])
  {
    if |s| == 0 then 0 else if p(s[0]) then 0 else 1 + IndexWhere(s[1..], p)
  }

  /** Index of the first occurrence of `x`, or |s| when there is none. */
  function IndexOf<T(==)>(s: seq<T>, x: T): (i: nat)
    ensures i <= |s|
    ensures i < |s| ==> s[i] == x
    ensures forall j :: 0 <= j < i ==> s[j] != x
  {
    if |s| == 0 then 0 else if s[0] == x then 0 else 1 + IndexOf(s[1..], x)
  }

  predicate EndsWith<T(==)>(s: seq<T>, suffix: seq<T>) {
    |suffix| <= |s| && s[|s| - |suffix|..] == suffix
  }

  /** Python's `sub in s` on byte strings (or strings). */
  predicate Contains<T(==)>(s: seq<T>, sub: seq<T>)
    decreases |s|
  {
    sub <= s || (|s| > 0 && Contains(s[1..], sub))
  }

  /** `Contains` holds exactly when `sub` occurs at some position of `s`. */
  lemma {:induction false} ContainsAt<T>(s: seq<T>, sub: seq<T>, k: nat)
    requires k + |sub| <= |s|
    ensures s[k..k + |sub|] == sub ==> Contains(s, sub)
    decreases k
  {
    if k > 0 && s[k..k + |sub|] == sub {
      assert s[1..][k - 1..k - 1 + |sub|] == s[k..k + |sub|];
      ContainsAt(s[1..], sub, k - 1);
    }
  }

  /** Python's str.replace(pat, rep): every non-overlapping occurrence of `pat`, scanning from the
      left, is replaced by `rep`. */
  function ReplaceAll<T(==)>(s: seq<T>, pat: seq<T>, rep: seq<T>): seq<T>
    requires |pat| > 0
    decreases |s|
  {
    if |s| == 0 then []
    else if pat <= s then rep + ReplaceAll(s[|pat|..], pat, rep)
    else [s[0]] + ReplaceAll(s[1..], pat, rep)
  }

  /** A replacement of the same length keeps the length. */
  lemma {:induction false} ReplaceAllLength<T>(s: seq<T>, pat: seq<T>, rep: seq<T>)
    requires |pat| > 0 && |rep| == |pat|
    ensures |ReplaceAll(s, pat, rep)| == |s|
    decreases |s|
  {
    if |s| == 0 {
    } else if pat <= s {
      ReplaceAllLength(s[|pat|..], pat, rep);
    } else {
      ReplaceAllLength(s[1..], pat, rep);
    }
  }

  /** No proper prefix of `pat` is also a suffix of it, so two occurrences never overlap. */
  predicate Unbordered<T(==)>(pat: seq<T>) {
    forall k :: 0 < k < |pat| ==> pat[..k] != pat[|pat| - k..]
  }

  /** A pattern whose first element occurs nowhere else in it is unbordered. */
  lemma HeadOnceUnbordered<T>(pat: seq<T>)
    requires |pat| > 0 && forall i :: 0 < i < |pat| ==> pat[i] != pat[0]
    ensures Unbordered(pat)
  {
    forall k | 0 < k < |pat| ensures pat[..k] != pat[|pat| - k..] {
      assert pat[..k][0] == pat[0] && pat[|pat| - k..][0] == pat[|pat| - k];
    }
  }

  /** An unbordered pattern cannot start inside a shorter non-empty prefix and run on into a
      copy of itself. */
  lemma NoStraddle<T>(t: seq<T>, pat: seq<T>)
    requires 0 < |t| < |pat| && Unbordered(pat)
    ensures !(pat <= t + pat)
  {
    var k := |pat| - |t|;
    assert pat[..k] != pat[|pat| - k..];
    var j :| 0 <= j < k && pat[..k][j] != pat[|pat| - k..][j];
    assert (t + pat)[|t| + j] == pat[j];
  }

  /** An occurrence of an unbordered pattern is always replaced, whatever precedes it, and the
      text on either side is rewritten on its own. */
  lemma {:induction false} ReplaceAllAround<T>(t: seq<T>, pat: seq<T>, rep: seq<T>, u: seq<T>)
    requires |pat| > 0 && Unbordered(pat)
    ensures ReplaceAll(t + pat + u, pat, rep) == ReplaceAll(t, pat, rep) + rep + ReplaceAll(u, pat, rep)
    decreases |t|
  {
    var s := t + pat + u;
    if t == [] {
      assert s == pat + u && pat <= s && s[|pat|..] == u;
    } else if pat <= t {
      assert pat <= s;
      assert s[|pat|..] == t[|pat|..] + pat + u;
      ReplaceAllAround(t[|pat|..], pat, rep, u);
    } else {
      if |t| >= |pat| {
        assert s[..|pat|] == t[..|pat|];
      } else {
        NoStraddle(t, pat);
        assert s[..|pat|] == (t + pat)[..|pat|];
      }
      assert s[1..] == t[1..] + pat + u;
      ReplaceAllAround(t[1..], pat, rep, u);
    }
  }

  // ---------------------------------------------------------------------------------------------
  // Words (str.split() with no separator)

  /** Python's str.split(): the maximal runs of non-space characters, in order. */
  function Words(s: string): seq<string>
    decreases |s|
  {
    if s == [] then []
    else if IsSpace(s[0]) then Words(s[1..])
    else
      var (w, rest) := SplitWord(s);
      [w] + Words(rest)
  }

  /** The run of non-space characters at the start of `s`, and what follows it. */
  function SplitWord(s: string): (r: (string, string))
    ensures |r.1| <= |s|
    ensures s != [] && !IsSpace(s[0]) ==> |r.1| < |s|
  {
    if s == [] || IsSpace(s[0]) then ([], s)
    else
      var (w, rest) := SplitWord(s[1..]);
      ([s[0]] + w, rest)
  }

  predicate NoSpace(w: string) {
    forall i :: 0 <= i < |w| ==> !IsSpace(w[i])
  }

  /** A run of non-space characters followed by the end or by a space splits off whole. */
  lemma {:induction false} SplitWordOf(w: string, rest: string)
    requires NoSpace(w) && (rest == [] || IsSpace(rest[0]))
    ensures SplitWord(w + rest) == (w, rest)
  {
    if w != [] {
      assert (w + rest)[0] == w[0] && (w + rest)[1..] == w[1..] + rest;
      SplitWordOf(w[1..], rest);
      assert [w[0]] + w[1..] == w;
    } else {
      assert w + rest == rest;
    }
  }

  /** Leading white space does not change the words. */
  lemma WordsAfterSpace(s: string)
    requires s != [] && IsSpace(s[0])
    ensures Words(s) == Words(s[1..])
  {
  }

  /** A word followed by the end of the text or by white space is the first word. */
  lemma WordsOfWord(w: string, rest: string)
    requires w != [] && NoSpace(w)
    requires rest == [] || IsSpace(rest[0])
    ensures Words(w + rest) == [w] + Words(rest)
  {
    assert (w + rest)[0] == w[0];
    SplitWordOf(w, rest);
  }

  /** A word, one white-space character and the rest: the word comes first, the separator is
      dropped. */
  lemma {:induction false} WordsOfSeparated(w: string, sep: char, rest: string)
    requires w != [] && NoSpace(w) && IsSpace(sep)
    ensures Words(w + [sep] + rest) == [w] + Words(rest)
  {
    var sp := [sep] + rest;
    assert w + [sep] + rest == w + sp;
    WordsOfWord(w, sp);
    assert sp[1..] == rest;
    WordsAfterSpace(sp);
  }

  // ---------------------------------------------------------------------------------------------
  // Decimal numbers

  function DigitChar(d: nat): (c: char)
    requires d < 10
    ensures IsDigit(c) && c as int - '0' as int == d
  {
    ('0' as int + d) as char
  }

  function DigitValue(c: char): nat
    requires IsDigit(c)
  {
    c as int - '0' as int
  }

  predicate AllDigits(s: string) {
    forall i :: 0 <= i < |s| ==> IsDigit(s[i])
  }

  /** The value of a string of decimal digits. */
  function DecimalValue(s: string): nat
    requires AllDigits(s)
  {
    if s == [] then 0 else DecimalValue(s[..|s| - 1]) * 10 + DigitValue(s[|s| - 1])
  }

  /** "{0}".format(n) for a non-negative integer n: its decimal digits without leading zeros. */
  function NatToDecimal(n: nat): (r: string)
    ensures |r| > 0 && AllDigits(r)
    ensures r[0] == '0' ==> n == 0
    ensures DecimalValue(r) == n
  {
    if n < 10 then [DigitChar(n)]
    else
      var p := NatToDecimal(n / 10);
      var r := p + [DigitChar(n % 10)];
      assert r[..|r| - 1] == p;
      r
  }

  /** The digit groups Python's int() accepts: digits, with single underscores between digits. */
  predicate IsDigitGroups(s: string)
    decreases |s|
  {
    && |s| > 0 && IsDigit(s[0])
    && (|s| == 1 || IsDigitGroups(s[1..]) || (s[1] == '_' && IsDigitGroups(s[2..])))
  }

  /** The value of digit groups: the digits read in decimal, the underscores skipped. */
  function GroupsValue(s: string): int {
    if s == [] then 0
    else if s[|s| - 1] == '_' then GroupsValue(s[..|s| - 1])
    else GroupsValue(s[..|s| - 1]) * 10 + (s[|s| - 1] as int - '0' as int)
  }

  /** The literal Python's int() accepts once surrounding white space is gone: an optional sign,
      then digit groups; anything else raises ValueError, which is None here. */
  function ParseSigned(t: string): Option<int> {
    if |t| > 0 && (t[0] == '-' || t[0] == '+') then
      var body := t[1..];
      if IsDigitGroups(body) then
        var v := GroupsValue(body);
        Some(if t[0] == '-' then -v else v)
      else None
    else if IsDigitGroups(t) then Some(GroupsValue(t))
    else None
  }

  /** Python's int() applied to a string. */
  function ParseInt(s: string): Option<int> {
    ParseSigned(Strip(s))
  }

  /** Python's int() applied to a byte string: only ASCII white space is skipped, and a byte
      outside ASCII is never part of a literal. */
  function ParseIntBytes(b: seq<byte>): Option<int> {
    ParseSigned(AsciiDecode(StripBytes(b)))
  }

  /** Plain digits are digit groups worth their decimal value. */
  lemma {:induction false} DigitsAreGroups(s: string)
    requires s != [] && AllDigits(s)
    ensures IsDigitGroups(s) && GroupsValue(s) == DecimalValue(s)
    decreases |s|
  {
    if |s| > 1 {
      DigitsAreGroups(s[1..]);
      DigitsAreGroups(s[..|s| - 1]);
    }
  }

  /** int() reads back what "{0}".format(n) wrote. */
  lemma DecimalRoundTrip(n: nat)
    ensures ParseInt(NatToDecimal(n)) == Some(n)
  {
    var d := NatToDecimal(n);
    assert !IsSpace(d[0]);
    assert !IsSpace(d[|d| - 1]);
    TrimUnchanged(d, IsSpace);
    assert Strip(d) == d;
    DigitsAreGroups(d);
  }

  // ---------------------------------------------------------------------------------------------
  // Bytes and strings

  /** bytes.decode('ascii') when every byte is below 128 (each byte becomes the character with
      that code point). */
  function AsciiDecode(b: seq<byte>): (s: string)
    ensures |s| == |b|
  {
    if b == [] then [] else [b[0] as int as char] + AsciiDecode(b[1..])
  }

  /** The bytes of an ASCII string (str.encode('ascii')). */
  function AsciiBytes(s: string): (b: seq<byte>)
    requires IsAscii(s)
    ensures |b| == |s| && forall i :: 0 <= i < |s| ==> b[i] as int == s[i] as int
  {
    if s == [] then [] else [s[0] as int as byte] + AsciiBytes(s[1..])
  }

  /** True when bytes.decode('ascii') succeeds. */
  predicate IsAsciiBytes(b: seq<byte>) {
    forall i :: 0 <= i < |b| ==> b[i] < 128
  }

  /** Decoding the encoding of an ASCII string gives the string back. */
  lemma AsciiRoundTrip(s: string)
    requires IsAscii(s)
    ensures IsAsciiBytes(AsciiBytes(s)) && AsciiDecode(AsciiBytes(s)) == s
  {
  }

  function LowerByte(b: byte): byte {
    if 65 <= b <= 90 then b + 32 else b
  }

  /** Python's bytes.lower(): ASCII upper-case letters become lower-case. */
  function LowerBytes(s: seq<byte>): (r: seq<byte>)
    ensures |r| == |s|
    ensures forall i :: 0 <= i < |s| ==> r[i] == LowerByte(s[i])
  {
    if s == [] then [] else [LowerByte(s[0])] + LowerBytes(s[1..])
  }
}
