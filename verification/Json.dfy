/** JSON text as encoding/json writes and reads it: every value the encoder accepts is
    read back, with bytes that are not UTF-8 replaced by U+FFFD. */
module Json {
  import opened Prelude
  import opened Numerals
  import Utf8

  /** A value. A number is its literal, as json.Number keeps it. */
  datatype Value =
    | Null | Bool(b: bool) | Num(lit: string) | Str(s: string)
    | Arr(elems: seq<Value>) | Obj(members: map<string, Value>)

  // ----- numbers -----

  /** The digits, fraction and exponent of RFC 8259 section 6: the length of the number at
      the head of `s`, 0 if there is none. */
  function NumberLength(s: string): (n: nat)
    ensures n <= |s|
  {
    var sign := if s != [] && s[0] == '-' then 1 else 0;
    var i := IntLength(s[sign..]);
    if i == 0 then 0 else sign + i + TailLength(s[sign + i..])
  }

  function IntLength(s: string): (n: nat)
    ensures n <= |s|
  {
    if s != [] && s[0] == '0' then 1 else DigitRun(s)
  }

  /** An optional fraction and exponent, 0 if what follows is neither. */
  function TailLength(s: string): (n: nat)
    ensures n <= |s|
  {
    var f := if |s| > 1 && s[0] == '.' && IsDigit(s[1]) then 1 + DigitRun(s[1..]) else 0;
    f + ExponentLength(s[f..])
  }

  function ExponentLength(s: string): (n: nat)
    ensures n <= |s|
  {
    if s == [] || (s[0] != 'e' && s[0] != 'E') then 0
    else
      var sign := if |s| > 1 && (s[1] == '+' || s[1] == '-') then 2 else 1;
      if sign < |s| && IsDigit(s[sign]) then sign + DigitRun(s[sign..]) else 0
  }

  predicate IsNumber(s: string) {
    s != [] && NumberLength(s) == |s|
  }

  // ----- writing -----

  function HexDigit(n: nat): char
    requires n < 16
  {
    if n < 10 then (n + '0' as int) as char else (n - 10 + 'a' as int) as char
  }

  /** The escape of one ASCII byte; `<`, `>` and `&` are escaped for HTML. */
  function AsciiText(c: char): string
    requires c as int < 0x80
  {
    if c == '"' then "\\\""
    else if c == '\\' then "\\\\"
    else if c == Utf8.Byte(8) then "\\b"
    else if c == Utf8.Byte(12) then "\\f"
    else if c == '\n' then "\\n"
    else if c == '\r' then "\\r"
    else if c == '\t' then "\\t"
    else if c as int < 0x20 || c == '<' || c == '>' || c == '&' then
      "\\u00" + [HexDigit(c as int / 16), HexDigit(c as int % 16)]
    else [c]
  }

  /** The width of the character at the head of `s`; a byte that is not UTF-8 counts as one. */
  function HeadSize(s: string): (n: nat)
    requires s != []
    ensures 1 <= n <= |s|
  {
    match Utf8.Decode(s)
    case None => 1
    case Some(r) => r.size
  }

  function HeadText(s: string): string
    requires s != []
  {
    if (s[0] as int) < 0x80 then AsciiText(s[0])
    else
      match Utf8.Decode(s)
      case None => "\\ufffd"
      case Some(r) => if r.value == 0x2028 then "\\u2028" else if r.value == 0x2029 then "\\u2029" else s[..r.size]
  }

  /** The characters of a string literal between its quotes. */
  function CharsText(s: string): string
    decreases |s|
  {
    if s == [] then [] else HeadText(s) + CharsText(s[HeadSize(s)..])
  }

  function StringText(s: string): string {
    "\"" + (CharsText(s) + "\"")
  }

  /** What json.Marshal can write: no number without a literal (a float that is not finite)
      and no map. */
  predicate Encodable(v: Value) {
    match v
    case Null => true
    case Bool(_) => true
    case Num(lit) => IsNumber(lit)
    case Str(_) => true
    case Arr(xs) => forall i :: 0 <= i < |xs| ==> Encodable(xs[i])
    case Obj(_) => false
  }

  function ValueText(v: Value): string
    requires Encodable(v)
    decreases v, 0
  {
    match v
    case Null => "null"
    case Bool(b) => if b then "true" else "false"
    case Num(lit) => lit
    case Str(s) => StringText(s)
    case Arr(xs) => "[" + (if xs == [] then "]" else ElemsText(xs))
  }

  function ElemsText(xs: seq<Value>): string
    requires xs != [] && forall i :: 0 <= i < |xs| ==> Encodable(xs[i])
    decreases xs, 1
  {
    ValueText(xs[0]) + (if |xs| == 1 then "]" else "," + ElemsText(xs[1..]))
  }

  // ----- reading -----

  datatype Read<+T> = Got(value: T, rest: string) | Fail

  predicate IsWhite(c: char) {
    c == ' ' || c == '\t' || c == '\r' || c == '\n'
  }

  function SkipWhite(s: string): (r: string)
    ensures |r| <= |s|
    ensures r != [] ==> !IsWhite(r[0])
  {
    if s != [] && IsWhite(s[0]) then SkipWhite(s[1..]) else s
  }

  function ReplacementText(): (s: string)
  {
    Utf8.Encode(0xFFFD)
  }

  lemma HexBound(c: char)
    requires IsHex(c)
    ensures HexValue(c) < 16
  {
  }

  /** The four hexadecimal digits at the head of `s`. */
  function Hex4(s: string): (r: Option<nat>)
    ensures r.Some? ==> |s| >= 4 && r.value < 0x1_0000
  {
    if |s| >= 4 && IsHex(s[0]) && IsHex(s[1]) && IsHex(s[2]) && IsHex(s[3]) then
      HexBound(s[0]);
      HexBound(s[1]);
      HexBound(s[2]);
      HexBound(s[3]);
      Some(HexValue(s[0]) * 4096 + HexValue(s[1]) * 256 + HexValue(s[2]) * 16 + HexValue(s[3]))
    else None
  }

  function Then(b: string, r: Read<string>): Read<string> {
    match r
    case Fail => Fail
    case Got(v, rest) => Got(b + v, rest)
  }

  predicate IsHighSurrogate(v: int) { 0xD800 <= v < 0xDC00 }
  predicate IsLowSurrogate(v: int) { 0xDC00 <= v < 0xE000 }

  function SimpleEscape(c: char): Option<char> {
    if c == '"' || c == '\\' || c == '/' then Some(c)
    else if c == 'b' then Some(Utf8.Byte(8))
    else if c == 'f' then Some(Utf8.Byte(12))
    else if c == 'n' then Some('\n')
    else if c == 'r' then Some('\r')
    else if c == 't' then Some('\t')
    else None
  }

  /** A \u escape after its backslash and letter: a pair of surrogates is one character, a
      lone one is replaced. */
  function UnicodeEscape(s: string): (r: Read<string>)
    ensures r.Got? ==> |r.rest| < |s|
  {
    match Hex4(s)
    case None => Fail
    case Some(v) =>
      if Utf8.IsScalarValue(v) then Got(Utf8.Encode(v), s[4..])
      else
        var low := if |s| >= 10 && s[4] == '\\' && s[5] == 'u' then Hex4(s[6..]) else None;
        if IsHighSurrogate(v) && low.Some? && IsLowSurrogate(low.value) then
          Got(Utf8.Encode(0x1_0000 + (v - 0xD800) * 1024 + (low.value - 0xDC00)), s[10..])
        else Got(ReplacementText(), s[4..])
  }

  /** The rest of a string literal after its opening quote. */
  function Chars(s: string): (r: Read<string>)
    ensures r.Got? ==> |r.rest| < |s|
    decreases |s|
  {
    if s == [] then Fail
    else if s[0] == '"' then Got([], s[1..])
    else if s[0] == '\\' then
      if |s| == 1 then Fail
      else if s[1] == 'u' then
        match UnicodeEscape(s[2..])
        case Fail => Fail
        case Got(v, rest) => Then(v, Chars(rest))
      else
        match SimpleEscape(s[1])
        case None => Fail
        case Some(c) => Then([c], Chars(s[2..]))
    else if (s[0] as int) < 0x20 then Fail
    else
      match Utf8.Decode(s)
      case None => Then(ReplacementText(), Chars(s[1..]))
      case Some(r) => Then(s[..r.size], Chars(s[r.size..]))
  }

  /** json.Decoder with UseNumber: the first value of the text. */
  function ReadValue(s: string): (r: Read<Value>)
    ensures r.Got? ==> |r.rest| < |s|
    decreases |s|, 0
  {
    var s0 := SkipWhite(s);
    if s0 == [] then Fail
    else if s0[0] == '"' then
      match Chars(s0[1..])
      case Fail => Fail
      case Got(v, rest) => Got(Str(v), rest)
    else if s0[0] == '[' then
      var s1 := SkipWhite(s0[1..]);
      if s1 != [] && s1[0] == ']' then Got(Arr([]), s1[1..])
      else
        match ReadElems(s1)
        case Fail => Fail
        case Got(xs, rest) => Got(Arr(xs), rest)
    else if s0[0] == '{' then
      var s1 := SkipWhite(s0[1..]);
      if s1 != [] && s1[0] == '}' then Got(Obj(map[]), s1[1..])
      else
        match ReadMembers(s1, map[])
        case Fail => Fail
        case Got(m, rest) => Got(Obj(m), rest)
    else if IsPrefix("true", s0) then Got(Bool(true), s0[4..])
    else if IsPrefix("false", s0) then Got(Bool(false), s0[5..])
    else if IsPrefix("null", s0) then Got(Null, s0[4..])
    else
      var n := NumberLength(s0);
      if n == 0 then Fail else Got(Num(s0[..n]), s0[n..])
  }

  function ReadElems(s: string): (r: Read<seq<Value>>)
    ensures r.Got? ==> |r.rest| < |s|
    decreases |s|, 1
  {
    match ReadValue(s)
    case Fail => Fail
    case Got(v, rest) =>
      var s1 := SkipWhite(rest);
      if s1 == [] then Fail
      else if s1[0] == ']' then Got([v], s1[1..])
      else if s1[0] == ',' then
        match ReadElems(s1[1..])
        case Fail => Fail
        case Got(xs, e) => Got([v] + xs, e)
      else Fail
  }

  /** The members of an object after `m` was read; a repeated key keeps its last value. */
  function ReadMembers(s: string, m: map<string, Value>): (r: Read<map<string, Value>>)
    ensures r.Got? ==> |r.rest| < |s|
    decreases |s|, 1
  {
    var s0 := SkipWhite(s);
    if s0 == [] || s0[0] != '"' then Fail
    else
      match Chars(s0[1..])
      case Fail => Fail
      case Got(k, rest) =>
        var s1 := SkipWhite(rest);
        if s1 == [] || s1[0] != ':' then Fail
        else
          match ReadValue(s1[1..])
          case Fail => Fail
          case Got(v, rest1) =>
            var s2 := SkipWhite(rest1);
            if s2 == [] then Fail
            else if s2[0] == '}' then Got(m[k := v], s2[1..])
            else if s2[0] == ',' then ReadMembers(s2[1..], m[k := v])
            else Fail
  }

  /** Decoding into a map: the first value must be an object or null. */
  function DecodeObject(s: string): Option<map<string, Value>> {
    match ReadValue(s)
    case Got(Obj(m), _) => Some(m)
    case Got(Null, _) => Some(map[])
    case _ => None
  }

  // ----- strings survive -----

  function HeadClean(s: string): string
    requires s != []
  {
    match Utf8.Decode(s)
    case None => ReplacementText()
    case Some(r) => s[..r.size]
  }

  /** A string with every byte that is not part of UTF-8 replaced. */
  function Clean(s: string): string
    decreases |s|
  {
    if s == [] then [] else HeadClean(s) + Clean(s[HeadSize(s)..])
  }

  /** The bytes of a decoded rune decode to it again, whatever follows. */
  lemma RuneHead(s: string, x: string)
    requires Utf8.Decode(s).Some?
    ensures var r := Utf8.Decode(s).value;
            Utf8.Encode(r.value) == s[..r.size] && Utf8.Decode(s[..r.size] + x) == Some(r)
  {
    Utf8.EncodeDecode(s);
    Utf8.DecodeEncode(Utf8.Decode(s).value.value, x);
  }

  lemma CleanStep(b: string, v: int, x: string)
    requires Utf8.IsScalarValue(v) && b == Utf8.Encode(v) && Utf8.Valid(x)
    ensures Utf8.Valid(b + x)
  {
    Utf8.DecodeEncode(v, x);
    assert (b + x)[|b|..] == x;
  }

  lemma {:induction false} CleanIsValid(s: string)
    ensures Utf8.Valid(Clean(s))
    decreases |s|
  {
    hide Utf8.Decode;
    hide Utf8.Encode;
    if s == [] {
    } else {
      var x := Clean(s[HeadSize(s)..]);
      CleanIsValid(s[HeadSize(s)..]);
      match Utf8.Decode(s) {
        case None => CleanStep(ReplacementText(), 0xFFFD, x);
        case Some(r) =>
          RuneHead(s, []);
          CleanStep(s[..r.size], r.value, x);
      }
    }
  }

  lemma {:induction false} CleanKeepsValid(s: string)
    requires Utf8.Valid(s)
    ensures Clean(s) == s
    decreases |s|
  {
    hide Utf8.Decode;
    if s == [] {
    } else {
      CleanKeepsValid(s[HeadSize(s)..]);
      assert s == s[..HeadSize(s)] + s[HeadSize(s)..];
    }
  }

  lemma {:induction false} CleanGrows(s: string)
    ensures |Clean(s)| >= |s| && (!Utf8.Valid(s) ==> |Clean(s)| > |s|)
    decreases |s|
  {
    hide Utf8.Decode;
    if s == [] {
    } else {
      CleanGrows(s[HeadSize(s)..]);
    }
  }

  /** The strings that come through JSON unchanged are exactly the valid UTF-8 ones, and
      what comes out is always valid. */
  lemma CleanValid(s: string)
    ensures Utf8.Valid(Clean(s))
    ensures Clean(s) == s <==> Utf8.Valid(s)
  {
    hide Clean;
    hide Utf8.Valid;
    CleanIsValid(s);
    CleanGrows(s);
    if Utf8.Valid(s) { CleanKeepsValid(s); }
  }

  /** Only an ASCII text cleans to an ASCII text, and it is unchanged. */
  lemma CleanToAscii(s: string, want: string)
    requires Utf8.Ascii(want)
    ensures Clean(s) == want <==> s == want
  {
    if Clean(s) == want { AsciiClean(s); }
    if s == want {
      Utf8.AsciiValid(s);
      CleanValid(s);
    }
  }

  lemma {:induction false} AsciiClean(s: string)
    requires Utf8.Ascii(Clean(s))
    ensures Clean(s) == s
    decreases |s|
  {
    if s == [] {
    } else {
      hide HeadClean;
      hide HeadSize;
      hide Utf8.Ascii;
      AsciiParts(HeadClean(s), Clean(s[HeadSize(s)..]));
      AsciiClean(s[HeadSize(s)..]);
      AsciiHead(s);
      Rejoin(s, HeadSize(s));
    }
  }

  lemma Rejoin(s: string, n: nat)
    requires n <= |s|
    ensures s[..n] + s[n..] == s
  {
  }

  lemma AsciiHead(s: string)
    requires s != [] && Utf8.Ascii(HeadClean(s))
    ensures HeadClean(s) == s[..HeadSize(s)]
  {
    assert ReplacementText()[0] == Utf8.Byte(0xEF);
    hide Utf8.Decode;
  }

  lemma AsciiParts(a: string, b: string)
    requires Utf8.Ascii(a + b)
    ensures Utf8.Ascii(a) && Utf8.Ascii(b)
  {
    assert forall i :: 0 <= i < |a| ==> (a + b)[i] == a[i];
    assert forall i :: 0 <= i < |b| ==> (a + b)[|a| + i] == b[i];
  }

  lemma AsciiRead(c: char, x: string)
    requires c as int < 0x80
    ensures Chars(AsciiText(c) + x) == Then([c], Chars(x))
  {
    hide Chars;
    if |AsciiText(c)| == 1 {
      PlainRead(c, x);
    } else if |AsciiText(c)| == 2 {
      ShortRead(c, x);
    } else {
      HexRead(c, x);
    }
  }

  lemma PlainRead(c: char, x: string)
    requires c as int < 0x80 && |AsciiText(c)| == 1
    ensures Chars(AsciiText(c) + x) == Then([c], Chars(x))
  {
    hide Utf8.Encode;
    hide UnicodeEscape;
    var t := AsciiText(c) + x;
    assert t[0] == c && t[1..] == x && t[..1] == [c];
  }

  lemma ShortRead(c: char, x: string)
    requires c as int < 0x80 && |AsciiText(c)| == 2
    ensures Chars(AsciiText(c) + x) == Then([c], Chars(x))
  {
    hide Utf8.Encode;
    hide UnicodeEscape;
    var t := AsciiText(c) + x;
    assert t[0] == '\\' && t[2..] == x;
  }

  lemma HexDigitValue(n: nat)
    requires n < 16
    ensures IsHex(HexDigit(n)) && HexValue(HexDigit(n)) == n
  {
  }

  lemma HexRead(c: char, x: string)
    requires c as int < 0x80
    ensures Chars("\\u00" + [HexDigit(c as int / 16), HexDigit(c as int % 16)] + x) == Then([c], Chars(x))
  {
    hide Chars;
    var h := "00" + [HexDigit(c as int / 16), HexDigit(c as int % 16)];
    assert "\\u00" + [HexDigit(c as int / 16), HexDigit(c as int % 16)] + x == "\\u" + (h + x);
    HexDigitValue(c as int / 16);
    HexDigitValue(c as int % 16);
    EscapeRead(h, c as int, x);
    assert Utf8.Encode(c as int) == [c];
  }

  /** A four-digit escape of a scalar value. */
  lemma EscapeRead(h: string, v: nat, x: string)
    requires |h| == 4 && Hex4(h) == Some(v) && Utf8.IsScalarValue(v)
    ensures Chars("\\u" + (h + x)) == Then(Utf8.Encode(v), Chars(x))
  {
    var t := "\\u" + (h + x);
    assert t[0] == '\\' && t[1] == 'u' && t[2..] == h + x;
    assert (h + x)[4..] == x;
    assert Hex4(h + x) == Hex4(h);
  }

  lemma HeadRead(s: string, x: string)
    requires s != []
    ensures Chars(HeadText(s) + x) == Then(HeadClean(s), Chars(x))
  {
    hide AsciiText;
    hide Chars;
    hide Utf8.Encode;
    if (s[0] as int) < 0x80 {
      AsciiRead(s[0], x);
      assert s[..1] == [s[0]];
    } else {
      match Utf8.Decode(s) {
        case None => BadRead(x);
        case Some(r) => RuneRead(s, r, x);
      }
    }
  }

  lemma BadRead(x: string)
    ensures Chars("\\ufffd" + x) == Then(ReplacementText(), Chars(x))
  {
    assert "\\ufffd" + x == "\\u" + ("fffd" + x);
    EscapeRead("fffd", 0xFFFD, x);
  }

  lemma RuneRead(s: string, r: Utf8.Rune, x: string)
    requires Utf8.Decode(s) == Some(r) && s != [] && (s[0] as int) >= 0x80
    ensures var t := if r.value == 0x2028 then "\\u2028" else if r.value == 0x2029 then "\\u2029" else s[..r.size];
            Chars(t + x) == Then(s[..r.size], Chars(x))
  {
    RuneHead(s, x);
    if r.value == 0x2028 {
      assert "\\u2028" + x == "\\u" + ("2028" + x);
      EscapeRead("2028", 0x2028, x);
    } else if r.value == 0x2029 {
      assert "\\u2029" + x == "\\u" + ("2029" + x);
      EscapeRead("2029", 0x2029, x);
    } else {
      var t := s[..r.size] + x;
      assert t[0] == s[0] && t[..r.size] == s[..r.size] && t[r.size..] == x;
    }
  }

  lemma AppendThree(a: string, b: string, c: string)
    ensures (a + b) + c == a + (b + c)
  {
  }

  /** Reading a written string gives it back, cleaned. */
  lemma {:induction false} CharsRead(s: string, rest: string)
    ensures Chars(CharsText(s) + ("\"" + rest)) == Got(Clean(s), rest)
    decreases |s|
  {
    var end := "\"" + rest;
    if s == [] {
      assert CharsText(s) + end == end;
    } else {
      hide Chars;
      hide HeadText;
      hide HeadClean;
      var tail := s[HeadSize(s)..];
      hide HeadSize;
      CharsRead(tail, rest);
      HeadRead(s, CharsText(tail) + end);
      AppendThree(HeadText(s), CharsText(tail), end);
    }
  }

  // ----- values survive -----

  /** What a written value reads back as. */
  function CleanValue(v: Value): Value
    requires Encodable(v)
    decreases v, 0
  {
    match v
    case Str(s) => Str(Clean(s))
    case Arr(xs) => Arr(CleanAll(xs))
    case _ => v
  }

  function CleanAll(xs: seq<Value>): (r: seq<Value>)
    requires forall i :: 0 <= i < |xs| ==> Encodable(xs[i])
    ensures |r| == |xs|
    decreases xs, 1
  {
    if xs == [] then [] else [CleanValue(xs[0])] + CleanAll(xs[1..])
  }

  /** The text after a value: nothing that could continue a number. */
  predicate Stops(rest: string) {
    rest != [] && (rest[0] == ',' || rest[0] == ']' || rest[0] == '}')
  }

  lemma {:induction false} DigitRunStops(s: string, rest: string)
    requires Stops(rest)
    ensures DigitRun(s + rest) == DigitRun(s)
  {
    if s == [] {
      assert s + rest == rest;
    } else {
      assert (s + rest)[1..] == s[1..] + rest;
      DigitRunStops(s[1..], rest);
    }
  }

  lemma ExponentStops(s: string, rest: string)
    requires Stops(rest)
    ensures ExponentLength(s + rest) == ExponentLength(s)
  {
    if s != [] {
      var sign := if |s| > 1 && (s[1] == '+' || s[1] == '-') then 2 else 1;
      if sign < |s| {
        assert (s + rest)[sign..] == s[sign..] + rest;
        DigitRunStops(s[sign..], rest);
      } else {
        assert (s + rest)[sign] == rest[0];
      }
    }
  }

  lemma TailStops(s: string, rest: string)
    requires Stops(rest)
    ensures TailLength(s + rest) == TailLength(s)
  {
    hide ExponentLength;
    hide DigitRun;
    if |s| > 1 {
      assert (s + rest)[1..] == s[1..] + rest;
      DigitRunStops(s[1..], rest);
    }
    var f := if |s| > 1 && s[0] == '.' && IsDigit(s[1]) then 1 + DigitRun(s[1..]) else 0;
    assert (s + rest)[f..] == s[f..] + rest;
    ExponentStops(s[f..], rest);
  }

  lemma IntStops(s: string, rest: string)
    requires Stops(rest)
    ensures IntLength(s + rest) == IntLength(s)
  {
    DigitRunStops(s, rest);
    if s == [] { assert s + rest == rest; }
  }

  lemma NumberStops(s: string, rest: string)
    requires Stops(rest) && s != []
    ensures NumberLength(s + rest) == NumberLength(s)
  {
    hide IntLength;
    hide TailLength;
    var t := s + rest;
    var sign := if s[0] == '-' then 1 else 0;
    assert t[sign..] == s[sign..] + rest;
    IntStops(s[sign..], rest);
    var i := IntLength(s[sign..]);
    assert t[sign + i..] == s[sign + i..] + rest;
    TailStops(s[sign + i..], rest);
  }

  lemma NumberHead(lit: string)
    requires IsNumber(lit)
    ensures lit[0] == '-' || IsDigit(lit[0])
  {
    hide TailLength;
  }

  lemma OtherWord(w: string, t: string)
    requires w != [] && t != [] && w[0] != t[0]
    ensures !IsPrefix(w, t)
  {
    if |w| <= |t| { assert t[..|w|][0] == t[0]; }
  }

  /** A value that starts like a number is read as one. */
  lemma NumberFirst(t: string)
    requires t != [] && (t[0] == '-' || IsDigit(t[0])) && NumberLength(t) > 0
    ensures ReadValue(t) == Got(Num(t[..NumberLength(t)]), t[NumberLength(t)..])
  {
    hide NumberLength;
    hide ReadElems;
    hide ReadMembers;
    hide Chars;
    hide IsPrefix;
    OtherWord("true", t);
    OtherWord("false", t);
    OtherWord("null", t);
    assert SkipWhite(t) == t;
  }

  lemma NumberRead(lit: string, rest: string)
    requires IsNumber(lit) && Stops(rest)
    ensures ReadValue(lit + rest) == Got(Num(lit), rest)
  {
    hide ReadValue;
    var t := lit + rest;
    NumberStops(lit, rest);
    NumberHead(lit);
    hide NumberLength;
    assert t[0] == lit[0];
    NumberFirst(t);
    assert t[..|lit|] == lit && t[|lit|..] == rest;
  }

  /** Every value the encoder accepts is read back, cleaned, up to where it ends. */
  lemma {:induction false} ValueRead(v: Value, rest: string)
    requires Encodable(v) && Stops(rest)
    ensures ReadValue(ValueText(v) + rest) == Got(CleanValue(v), rest)
    decreases v, 0
  {
    match v {
      case Num(lit) => NumberRead(lit, rest);
      case Str(s) => StringRead(s, rest);
      case Arr(xs) =>
        if xs == [] {
          EmptyArrayRead(rest);
        } else {
          ElemsRead(xs, rest);
          ArrayRead(xs, rest);
        }
      case Bool(b) => WordRead(if b then "true" else "false", rest);
      case Null => WordRead("null", rest);
    }
  }

  lemma StringRead(s: string, rest: string)
    ensures ReadValue(StringText(s) + rest) == Got(Str(Clean(s)), rest)
  {
    hide Chars;
    hide CharsText;
    hide Clean;
    var t := StringText(s) + rest;
    CharsRead(s, rest);
    assert t[1..] == CharsText(s) + ("\"" + rest);
  }

  lemma EmptyArrayRead(rest: string)
    ensures ReadValue("[" + "]" + rest) == Got(Arr([]), rest)
  {
    var t := "[" + "]" + rest;
    assert t[1..] == "]" + rest;
  }

  lemma ArrayRead(xs: seq<Value>, rest: string)
    requires xs != [] && forall i :: 0 <= i < |xs| ==> Encodable(xs[i])
    requires ReadElems(ElemsText(xs) + rest) == Got(CleanAll(xs), rest)
    ensures ReadValue("[" + ElemsText(xs) + rest) == Got(Arr(CleanAll(xs)), rest)
  {
    hide ReadElems;
    hide ElemsText;
    var t := "[" + ElemsText(xs) + rest;
    var t1 := ElemsText(xs) + rest;
    assert t[0] == '[' && t[1..] == t1;
    ElemsHead(xs, rest);
  }

  /** The text of elements starts neither with white space nor with a closing bracket. */
  lemma ElemsHead(xs: seq<Value>, rest: string)
    requires xs != [] && forall i :: 0 <= i < |xs| ==> Encodable(xs[i])
    ensures var t := ElemsText(xs) + rest; t != [] && t[0] != ']' && !IsWhite(t[0]) && SkipWhite(t) == t
  {
    hide ValueText;
    var t := ElemsText(xs) + rest;
    ValueHead(xs[0]);
    assert t[0] == ValueText(xs[0])[0];
  }

  lemma ValueHead(v: Value)
    requires Encodable(v)
    ensures ValueText(v) != [] && ValueText(v)[0] != ']' && !IsWhite(ValueText(v)[0])
  {
    hide TailLength;
    hide CharsText;
    hide ElemsText;
    if v.Num? { assert v.lit[0] == '-' || IsDigit(v.lit[0]); }
  }

  lemma WordRead(w: string, rest: string)
    requires w == "true" || w == "false" || w == "null"
    ensures ReadValue(w + rest) == Got(if w == "null" then Null else Bool(w == "true"), rest)
  {
    var t := w + rest;
    assert t[..|w|] == w && t[|w|..] == rest;
    assert t[0] == w[0];
    if w == "false" { assert t[..4][0] == 'f'; }
    if w == "null" { assert t[..4][0] == 'n'; }
  }

  lemma {:induction false} ElemsRead(xs: seq<Value>, rest: string)
    requires xs != [] && forall i :: 0 <= i < |xs| ==> Encodable(xs[i])
    ensures ReadElems(ElemsText(xs) + rest) == Got(CleanAll(xs), rest)
    decreases xs, 1
  {
    hide ReadValue;
    hide ValueText;
    hide CleanValue;
    var end := if |xs| == 1 then "]" + rest else "," + (ElemsText(xs[1..]) + rest);
    assert ElemsText(xs) + rest == ValueText(xs[0]) + end;
    ValueRead(xs[0], end);
    assert SkipWhite(end) == end;
    if |xs| == 1 {
      assert end[1..] == rest;
      assert [CleanValue(xs[0])] + CleanAll(xs[1..]) == [CleanValue(xs[0])];
    } else {
      assert end[1..] == ElemsText(xs[1..]) + rest;
      ElemsRead(xs[1..], rest);
    }
  }

  // ----- written text is bytes -----

  lemma HeadBytes(s: string)
    requires s != []
    ensures Bytes(HeadText(s))
  {
    if (s[0] as int) >= 0x80 && Utf8.Decode(s).Some? { Utf8.EncodeDecode(s); }
  }

  lemma {:induction false} CharsBytes(s: string)
    ensures Bytes(CharsText(s))
    decreases |s|
  {
    if s == [] {
    } else {
      HeadBytes(s);
      CharsBytes(s[HeadSize(s)..]);
    }
  }

  lemma ExponentBytes(s: string)
    ensures Bytes(s[..ExponentLength(s)])
  {
    var sign := if |s| > 1 && (s[1] == '+' || s[1] == '-') then 2 else 1;
    if ExponentLength(s) > 0 {
      var n := DigitRun(s[sign..]);
      assert AllDigits(s[sign..][..n]);
      forall i | 0 <= i < sign + n ensures (s[i] as int) < 256 {
        if i >= sign { assert s[i] == s[sign..][..n][i - sign]; }
      }
    }
  }

  lemma TailBytes(s: string)
    ensures Bytes(s[..TailLength(s)])
  {
    var f := if |s| > 1 && s[0] == '.' && IsDigit(s[1]) then 1 + DigitRun(s[1..]) else 0;
    ExponentBytes(s[f..]);
    forall i | 0 <= i < TailLength(s) ensures (s[i] as int) < 256 {
      if i >= f {
        assert s[i] == s[f..][..ExponentLength(s[f..])][i - f];
      } else if i >= 1 {
        assert s[i] == s[1..][..DigitRun(s[1..])][i - 1];
      }
    }
  }

  lemma NumberBytes(s: string)
    requires IsNumber(s)
    ensures Bytes(s)
  {
    hide TailLength;
    var sign := if s[0] == '-' then 1 else 0;
    var n := IntLength(s[sign..]);
    TailBytes(s[sign + n..]);
    forall i | 0 <= i < |s| ensures (s[i] as int) < 256 {
      if i >= sign + n {
        assert s[i] == s[sign + n..][..TailLength(s[sign + n..])][i - sign - n];
      } else if i >= sign && s[sign] != '0' {
        assert s[i] == s[sign..][..n][i - sign];
      }
    }
  }

  lemma {:induction false} ValueBytes(v: Value)
    requires Encodable(v)
    ensures Bytes(ValueText(v))
    decreases v, 0
  {
    match v {
      case Num(lit) => NumberBytes(lit);
      case Str(s) => CharsBytes(s);
      case Arr(xs) => if xs != [] { ElemsBytes(xs); }
      case _ =>
    }
  }

  lemma {:induction false} ElemsBytes(xs: seq<Value>)
    requires xs != [] && forall i :: 0 <= i < |xs| ==> Encodable(xs[i])
    ensures Bytes(ElemsText(xs))
    decreases xs, 1
  {
    hide ValueText;
    ValueBytes(xs[0]);
    if |xs| <= 1 {
    } else {
      ElemsBytes(xs[1..]);
    }
  }

  // ----- the text, byte by byte -----

  /** The bytes that are written with a backslash and a letter, and the letters. */
  const ESCAPED: seq<char> := [34 as char, 92 as char, 8 as char, 12 as char, 10 as char, 13 as char, 9 as char]
  const LETTERS := "\"\\bfnrt"

  /** Other control characters and the three that HTML gives a meaning are written as \u00 and two
      digits. */
  predicate Numbered(c: char) {
    (c as int < 0x20 && c !in ESCAPED) || c in "<>&"
  }

  lemma AsciiWritten(c: char, rest: string)
    requires c as int < 0x80
    ensures c in ESCAPED || Numbered(c) || CharsText([c] + rest) == [c] + CharsText(rest)
    ensures Numbered(c) ==>
              CharsText([c] + rest)
              == "\\u00" + ["0123456789abcdef"[c as int / 16], "0123456789abcdef"[c as int % 16]] + CharsText(rest)
    ensures forall i :: 0 <= i < 7 && c == ESCAPED[i] ==> CharsText([c] + rest) == "\\" + [LETTERS[i]] + CharsText(rest)
  {
    var s := [c] + rest;
    assert s[1..] == rest;
    FirstAscii(c, rest);
    assert CharsText(s) == AsciiText(c) + CharsText(rest);
    hide CharsText;
    AsciiTable(c);
    hide AsciiText;
  }

  lemma FirstAscii(c: char, rest: string)
    requires c as int < 0x80
    ensures HeadSize([c] + rest) == 1 && HeadText([c] + rest) == AsciiText(c)
  {
  }

  lemma AsciiTable(c: char)
    requires c as int < 0x80
    ensures c in ESCAPED || Numbered(c) || AsciiText(c) == [c]
    ensures Numbered(c) ==>
              AsciiText(c) == "\\u00" + ["0123456789abcdef"[c as int / 16], "0123456789abcdef"[c as int % 16]]
    ensures forall i :: 0 <= i < 7 && c == ESCAPED[i] ==> AsciiText(c) == "\\" + [LETTERS[i]]
  {
    HexDigitsOrder(c as int / 16);
    HexDigitsOrder(c as int % 16);
    hide HexDigit;
    assert LETTERS == ['"', '\\', 'b', 'f', 'n', 'r', 't'];
  }

  /** Hexadecimal digits are lower-case. */
  lemma HexDigitsOrder(n: nat)
    requires n < 16
    ensures HexDigit(n) == "0123456789abcdef"[n]
  {
  }

  /** A scalar character beyond ASCII is written as it is, but for the two line separators; a byte
      that belongs to none is written as the replacement character. */
  lemma RuneWritten(v: int, rest: string)
    requires Utf8.IsScalarValue(v) && v >= 0x80
    ensures CharsText(Utf8.Encode(v) + rest)
         == (if v == 0x2028 then "\\u2028" else if v == 0x2029 then "\\u2029" else Utf8.Encode(v)) + CharsText(rest)
  {
    var s := Utf8.Encode(v) + rest;
    Utf8.DecodeEncode(v, rest);
    assert s[|Utf8.Encode(v)|..] == rest && s[..|Utf8.Encode(v)|] == Utf8.Encode(v);
    assert (s[0] as int) >= 0x80;
    hide Utf8.Encode;
    hide Utf8.Decode;
  }

  function Texts(xs: seq<Value>): seq<string>
    requires forall i :: 0 <= i < |xs| ==> Encodable(xs[i])
  {
    seq(|xs|, i requires 0 <= i < |xs| => ValueText(xs[i]))
  }

  /** An array is its elements between brackets, with commas between them. */
  lemma {:induction false} ArrayWritten(xs: seq<Value>)
    requires Encodable(Arr(xs))
    ensures ValueText(Arr(xs)) == "[" + (Join(Texts(xs), ",") + "]")
  {
    if xs != [] {
      ElemsWritten(xs);
    }
  }

  lemma {:induction false} ElemsWritten(xs: seq<Value>)
    requires xs != [] && forall i :: 0 <= i < |xs| ==> Encodable(xs[i])
    ensures ElemsText(xs) == Join(Texts(xs), ",") + "]"
  {
    hide ValueText;
    var ts := Texts(xs);
    if |xs| == 1 {
      assert ts == [ValueText(xs[0])];
    } else {
      ElemsWritten(xs[1..]);
      assert ts[1..] == Texts(xs[1..]);
      var tail := Join(ts[1..], ",");
      assert ts[0] + ("," + (tail + "]")) == ts[0] + "," + tail + "]";
    }
  }
}
