/** What the literals of a document stand for, said without the scanner's own functions: numbers by
    the place values of their digits, with underscores anywhere; escapes by a table; and the
    characters that keys, numbers and blanks are made of. */
module TomlLiterals {
  import opened Prelude
  import opened Numerals
  import Utf8
  import opened TomlTree
  import opened TomlSyntax

  // ----- place values -----

  const DIGITS := "0123456789"

  /** The number a string of decimal digits stands for: each digit times the power of ten of its
      place. */
  function PlaceValue(s: string): nat
    requires AllDigits(s)
  {
    if s == [] then 0 else (s[0] as int - '0' as int) * Power(10, |s| - 1) + PlaceValue(s[1..])
  }

  lemma PlaceLast(s: string, c: char)
    requires AllDigits(s) && IsDigit(c)
    ensures AllDigits(s + [c]) && PlaceValue(s + [c]) == 10 * PlaceValue(s) + DigitValue(c)
  {
    var t := s + [c];
    if s == [] {
      assert t == [c] && t[1..] == [];
      assert Power(10, 0) == 1;
    } else {
      PlaceLast(s[1..], c);
      assert t[1..] == s[1..] + [c];
      PowerStep(s[0] as int - '0' as int, |s| - 1);
    }
  }

  lemma PowerStep(d: nat, e: nat)
    ensures d * Power(10, e + 1) == 10 * (d * Power(10, e))
  {
  }

  lemma {:induction false} DigitsPlace(s: string)
    requires AllDigits(s)
    ensures Digits(s) == PlaceValue(s)
  {
    if s == [] {
    } else {
      var front := s[..|s| - 1];
      DigitsPlace(front);
      PlaceLast(front, s[|s| - 1]);
      assert s == front + [s[|s| - 1]];
    }
  }

  // ----- underscores -----

  lemma {:induction false} RemoveJoined(a: string, b: string, c: char)
    ensures Remove(a + b, c) == Remove(a, c) + Remove(b, c)
  {
    if a == [] {
      assert a + b == b;
    } else {
      assert (a + b)[0] == a[0] && (a + b)[1..] == a[1..] + b;
      RemoveJoined(a[1..], b, c);
    }
  }

  /** Underscores change nothing, wherever they stand in a number. */
  lemma Underscores(a: string, b: string)
    ensures NumberValue(a + "_" + b) == NumberValue(a + b)
  {
    hide IsFloat;
    hide ParseInt64;
    RemoveJoined(a + "_", b, '_');
    RemoveJoined(a, "_", '_');
    RemoveJoined(a, b, '_');
    OnlyUnderscore();
    assert Remove(a, '_') + [] == Remove(a, '_');
  }

  lemma OnlyUnderscore()
    ensures Remove("_", '_') == []
  {
  }

  // ----- integers -----

  predicate IsSign(s: string) {
    s == "" || s == "+" || s == "-"
  }

  function Signed(sign: string, n: nat): int {
    if sign == "-" then -(n as int) else n
  }

  lemma PlainChars(sign: string, ds: string)
    requires IsSign(sign) && AllDigits(ds)
    ensures '_' !in sign + ds && !ContainsAny(sign + ds, ".eE")
  {
    var s := sign + ds;
    forall i | 0 <= i < |s| ensures s[i] == '+' || s[i] == '-' || IsDigit(s[i]) {
    }
  }

  lemma SignedParse(sign: string, ds: string)
    requires IsSign(sign) && ds != [] && AllDigits(ds)
    ensures var n := Signed(sign, Digits(ds));
            ParseInt64(sign + ds) == if MIN_INT64 <= n <= MAX_INT64 then Some(n) else None
  {
    hide Digits;
    var s := sign + ds;
    assert sign == "" ==> s == ds && s[0] == ds[0];
    assert sign != "" ==> s[0] == sign[0] && s[1..] == ds;
  }

  /** A token of an optional sign and digits, leading zeros allowed, is the signed value of its
      digits, and is refused exactly outside the 64-bit range. */
  lemma IntegerToken(sign: string, ds: string)
    requires IsSign(sign) && ds != [] && AllDigits(ds)
    ensures var n := Signed(sign, PlaceValue(ds));
            NumberValue(sign + ds) == if -0x8000_0000_0000_0000 <= n <= 0x7FFF_FFFF_FFFF_FFFF then Some(Int(n)) else None
  {
    PlainChars(sign, ds);
    RemoveAbsent(sign + ds, '_');
    DigitsPlace(ds);
    SignedParse(sign, ds);
    hide IsFloat;
    hide PlaceValue;
    hide Digits;
    hide ParseInt64;
    hide ContainsAny;
    hide Remove;
    hide IsSign;
    hide AllDigits;
  }

  /** No other token without a point or an exponent is a number. */
  lemma IntegerExactly(s: string)
    requires '_' !in s && !ContainsAny(s, ".eE")
    ensures NumberValue(s).Some? ==>
              exists sign, ds :: IsSign(sign) && ds != [] && AllDigits(ds) && s == sign + ds
  {
    hide IsFloat;
    RemoveAbsent(s, '_');
    if NumberValue(s).Some? {
      var k := if s[0] == '-' || s[0] == '+' then 1 else 0;
      assert s == s[..k] + s[k..];
      assert IsSign(s[..k]) by { assert k == 1 ==> s[..1] == [s[0]]; }
    }
  }

  // ----- floats -----

  /** A float as written: sign, digits before and after a point, and an exponent with its letter,
      sign and digits. */
  datatype FloatParts = FloatParts(sign: string, whole: string, point: bool, frac: string, exp: Option<Exponent>)

  datatype Exponent = Exponent(letter: char, sign: string, digits: string)

  predicate WellWritten(f: FloatParts) {
    && IsSign(f.sign) && AllDigits(f.whole) && AllDigits(f.frac) && f.whole + f.frac != []
    && (!f.point ==> f.frac == [])
    && GoodExponent(f.exp)
  }

  function ExponentText(x: Option<Exponent>): string {
    if x.None? then [] else [x.value.letter] + (x.value.sign + x.value.digits)
  }

  function FloatText(f: FloatParts): string {
    f.sign + (f.whole + ((if f.point then "." else "") + (f.frac + ExponentText(f.exp))))
  }

  function ExponentValue(x: Option<Exponent>): int
    requires x.Some? ==> AllDigits(x.value.digits)
  {
    if x.None? then 0 else Signed(x.value.sign, PlaceValue(x.value.digits))
  }

  /** The written number is below the magnitude that rounds to infinity. */
  predicate InRange(f: FloatParts)
    requires WellWritten(f)
  {
    !Overflows(PlaceValue(f.whole + f.frac), ExponentValue(f.exp) - |f.frac|)
  }

  lemma {:induction false} RunOf(ds: string, rest: string)
    requires AllDigits(ds) && (rest != [] ==> !IsDigit(rest[0]))
    ensures DigitRun(ds + rest) == |ds|
  {
    if ds == [] {
      assert ds + rest == rest;
    } else {
      assert (ds + rest)[1..] == ds[1..] + rest;
      RunOf(ds[1..], rest);
    }
  }

  predicate GoodExponent(x: Option<Exponent>) {
    x.Some? ==>
      x.value.letter in "eE" && IsSign(x.value.sign) && x.value.digits != [] && AllDigits(x.value.digits)
  }

  /** A sign in front of digits. */
  lemma SignBefore(sign: string, rest: string)
    requires IsSign(sign) && rest != [] && rest[0] != '-' && rest[0] != '+'
    ensures AfterSign(sign + rest) == rest && ((sign + rest)[0] == '-' <==> sign == "-")
  {
    assert sign == "" ==> sign + rest == rest;
    assert sign != "" ==> (sign + rest)[0] == sign[0] && (sign + rest)[1..] == rest;
  }

  lemma ExponentRead(x: Option<Exponent>)
    requires GoodExponent(x)
    ensures IsExponent(ExponentText(x)) && ExponentOf(ExponentText(x)) == ExponentValue(x)
  {
    hide Digits;
    hide PlaceValue;
    if x.Some? {
      var e := x.value;
      var t := ExponentText(x);
      assert t[0] == e.letter && t[1..] == e.sign + e.digits;
      SignBefore(e.sign, e.digits);
      DigitsPlace(e.digits);
      assert t[1] == t[1..][0];
    }
  }

  lemma ExponentHead(x: Option<Exponent>)
    requires GoodExponent(x)
    ensures var e := ExponentText(x); e != [] ==> (e[0] == 'e' || e[0] == 'E')
  {
  }

  /** The test for a float, on a text cut where its parts meet. */
  lemma FloatCut(s: string, whole: string, point: bool, frac: string, e: string)
    requires AfterSign(s) == whole + ((if point then "." else "") + (frac + e))
    requires AllDigits(whole) && AllDigits(frac) && (!point ==> frac == [])
    requires e != [] ==> !IsDigit(e[0]) && e[0] != '.'
    ensures IsFloat(s) <==> whole + frac != [] && IsExponent(e) && !Overflows(Digits(whole + frac), ExponentOf(e) - |frac|)
  {
    hide Overflows;
    hide Digits;
    hide IsExponent;
    hide ExponentOf;
    var s0 := AfterSign(s);
    RunOf(frac, e);
    RunOf(whole, (if point then "." else "") + (frac + e));
    var n := |whole|;
    hide DigitRun;
    assert s0[..n] == whole;
    if point {
      assert s0[n] == '.' && s0[n + 1..] == frac + e;
      assert (frac + e)[..|frac|] == frac && (frac + e)[|frac|..] == e;
    } else {
      assert frac + e == e && s0[n..] == e;
      assert e[..0] == [] && whole + [] == whole && e[0..] == e;
    }
  }

  /** Every written float is read, unless it is too large. */
  lemma FloatRead(f: FloatParts)
    requires WellWritten(f)
    ensures IsFloat(FloatText(f)) <==> InRange(f)
  {
    hide IsFloat;
    hide Overflows;
    hide IsExponent;
    hide ExponentOf;
    hide ExponentValue;
    hide PlaceValue;
    hide Digits;
    hide AfterSign;
    hide ExponentText;
    var e := ExponentText(f.exp);
    ExponentHead(f.exp);
    ExponentRead(f.exp);
    DigitsPlace(f.whole + f.frac);
    var rest := f.whole + ((if f.point then "." else "") + (f.frac + e));
    assert rest[0] == if f.whole != [] then f.whole[0] else '.';
    SignBefore(f.sign, rest);
    FloatCut(FloatText(f), f.whole, f.point, f.frac, e);
  }

  lemma SignOf(s: string) returns (sign: string)
    ensures IsSign(sign) && s == sign + AfterSign(s)
  {
    sign := s[..|s| - |AfterSign(s)|];
    assert |sign| == 1 ==> sign == [s[0]];
  }

  lemma ExponentWritten(s: string) returns (x: Option<Exponent>)
    requires IsExponent(s)
    ensures ExponentText(x) == s && GoodExponent(x)
  {
    if s == [] {
      x := None;
    } else {
      var sign := SignOf(s[1..]);
      x := Some(Exponent(s[0], sign, AfterSign(s[1..])));
      hide AfterSign;
      assert s == [s[0]] + s[1..];
    }
  }

  lemma FloatPieces(s: string) returns (whole: string, point: bool, frac: string, e: string)
    requires IsFloat(s)
    ensures AllDigits(whole) && AllDigits(frac) && whole + frac != [] && (!point ==> frac == []) && IsExponent(e)
    ensures AfterSign(s) == whole + ((if point then "." else "") + (frac + e))
  {
    hide Overflows;
    hide Digits;
    hide IsExponent;
    hide ExponentOf;
    hide AfterSign;
    var s0 := AfterSign(s);
    var n := DigitRun(s0);
    point := n < |s0| && s0[n] == '.';
    var s2 := if point then s0[n + 1..] else s0[n..];
    var m := if point then DigitRun(s2) else 0;
    whole, frac, e := s0[..n], s2[..m], s2[m..];
    hide IsFloat;
    hide DigitRun;
    hide AllDigits;
    CutAtPoint(s0, n, point, m);
  }

  lemma CutAtPoint(s: string, n: nat, point: bool, m: nat)
    requires n <= |s| && (point ==> n < |s| && s[n] == '.')
    requires m <= |s| - n - if point then 1 else 0
    ensures var s2 := if point then s[n + 1..] else s[n..];
            s == s[..n] + ((if point then "." else "") + (s2[..m] + s2[m..]))
  {
    var s2 := if point then s[n + 1..] else s[n..];
    assert s2[..m] + s2[m..] == s2;
    assert s == s[..n] + ((if point then "." else "") + s2);
  }

  /** Every float that is read is written like that. */
  lemma FloatWritten(s: string) returns (f: FloatParts)
    requires IsFloat(s)
    ensures WellWritten(f) && FloatText(f) == s
  {
    hide IsFloat;
    hide IsExponent;
    hide ExponentText;
    hide AfterSign;
    hide IsSign;
    hide AllDigits;
    hide GoodExponent;
    var sign := SignOf(s);
    var whole, point, frac, e := FloatPieces(s);
    var x := ExponentWritten(e);
    f := FloatParts(sign, whole, point, frac, x);
  }

  /** A literal is a finite float exactly if it is written as one and its value is in range. */
  lemma FloatExactly(s: string)
    ensures IsFloat(s) <==> exists f :: WellWritten(f) && FloatText(f) == s && InRange(f)
  {
    hide IsFloat;
    hide InRange;
    hide WellWritten;
    hide FloatText;
    if IsFloat(s) {
      var f := FloatWritten(s);
      FloatRead(f);
    }
    if f :| WellWritten(f) && FloatText(f) == s && InRange(f) {
      FloatRead(f);
    }
  }

  // ----- number tokens -----

  const NUMBER_CHARS := "0123456789+-_.eE"

  predicate TwoDashes(s: string) {
    exists i, j :: 0 <= i < j < |s| && s[i] == s[j] == '-'
  }

  lemma {:induction false} DashCount(s: string)
    ensures Count(s, '-') > 0 <==> exists i :: 0 <= i < |s| && s[i] == '-'
    ensures Count(s, '-') > 1 <==> TwoDashes(s)
  {
    if s == [] {
    } else {
      var t := s[1..];
      DashCount(t);
      assert forall i :: 0 <= i < |t| ==> t[i] == s[i + 1];
      if i :| 0 <= i < |t| && t[i] == '-' {
        assert s[i + 1] == '-';
      }
      if i, j :| 0 <= i < j < |t| && t[i] == t[j] == '-' {
        assert s[i + 1] == s[j + 1] == '-';
      }
      if i, j :| 0 <= i < j < |s| && s[i] == s[j] == '-' {
        assert t[j - 1] == '-';
        if i > 0 { assert t[i - 1] == '-'; }
      }
    }
  }

  lemma {:induction false} TokenRun(raw: string, rest: string)
    requires (forall i :: 0 <= i < |raw| ==> raw[i] in NUMBER_CHARS) && (rest != [] ==> rest[0] !in NUMBER_CHARS)
    ensures NumberRun(raw + rest) == |raw|
  {
    if raw == [] {
      assert raw + rest == rest;
    } else {
      assert (raw + rest)[1..] == raw[1..] + rest;
      TokenRun(raw[1..], rest);
    }
  }

  /** What a number token reads as, from its first character to the end of the token: a datetime is
      recognized by the character after it, or by its dashes. */
  lemma NumberExactly(raw: string, rest: string)
    requires raw != [] && forall i :: 0 <= i < |raw| ==> raw[i] in NUMBER_CHARS
    requires rest != [] ==> rest[0] !in NUMBER_CHARS
    ensures Number(raw + rest)
         == if (rest != [] && rest[0] in ":TZ") || (TwoDashes(raw) && 'e' !in raw && 'E' !in raw) then
              Bad(BareDatetime, rest)
            else if NumberValue(raw).None? then Bad(InvalidNumber, rest)
            else Good(NumberValue(raw).value, rest)
  {
    hide NumberValue;
    var s := raw + rest;
    TokenRun(raw, rest);
    assert s[..|raw|] == raw && s[|raw|..] == rest;
    DashCount(raw);
    assert ContainsAny(raw, "eE") <==> 'e' in raw || 'E' in raw by { Contained(raw); }
  }

  lemma Contained(s: string)
    ensures ContainsAny(s, "eE") <==> 'e' in s || 'E' in s
  {
    if ContainsAny(s, "eE") {
      var i :| 0 <= i < |s| && s[i] in "eE";
      assert s[i] == 'e' || s[i] == 'E';
    }
  }

  // ----- escapes -----

  /** The letters of the one-letter escapes, and the bytes they stand for. */
  const ESCAPES := "btnfr\"\\"
  const ESCAPED: seq<char> := [8 as char, 9 as char, 10 as char, 12 as char, 13 as char, 34 as char, 92 as char]

  lemma EscapeTable(i: nat, x: string)
    requires i < 7
    ensures BasicBody("\\" + [ESCAPES[i]] + x) == Prepend([ESCAPED[i]], BasicBody(x))
  {
    var s := "\\" + [ESCAPES[i]] + x;
    assert s[1..] == [ESCAPES[i]] + x && s[1..][1..] == x;
    TableEntry(i);
  }

  lemma TableEntry(i: nat)
    requires i < 7
    ensures SimpleEscape(ESCAPES[i]) == Some(ESCAPED[i])
  {
    assert ESCAPES == ['b', 't', 'n', 'f', 'r', '"', '\\'];
  }

  /** Besides \u and \U there is no other escape. */
  lemma NoOtherEscape(c: char, x: string)
    requires c !in ESCAPES && c != 'u' && c != 'U'
    ensures BasicBody("\\" + [c] + x) == Bad(UnknownEscape, x)
  {
    var s := "\\" + [c] + x;
    assert s[1..] == [c] + x && s[1..][1..] == x;
    assert ESCAPES == ['b', 't', 'n', 'f', 'r', '"', '\\'];
    assert SimpleEscape(c).None?;
  }

  /** Hexadecimal digits in both cases, and their place values. */
  lemma HexDigits(i: nat)
    requires i < 16
    ensures IsHex("0123456789abcdef"[i]) && HexValue("0123456789abcdef"[i]) == i
    ensures IsHex("0123456789ABCDEF"[i]) && HexValue("0123456789ABCDEF"[i]) == i
  {
  }

  lemma HexOnly(c: char)
    ensures IsHex(c) <==> c in "0123456789abcdefABCDEF"
  {
  }

  lemma {:induction false} HexPlaces(c: char, s: string)
    requires IsHex(c) && AllHex(s)
    ensures AllHex([c] + s) && Hex([c] + s) == HexValue(c) * Power(16, |s|) + Hex(s)
  {
    var t := [c] + s;
    if s == [] {
      assert t[..0] == [] && Hex(t[..0]) == 0;
    } else {
      var front := s[..|s| - 1];
      assert t[..|t| - 1] == [c] + front;
      HexPlaces(c, front);
      HexPower(HexValue(c), |front|);
    }
  }

  lemma HexPower(d: nat, e: nat)
    ensures d * Power(16, e + 1) == 16 * (d * Power(16, e))
  {
  }

  // ----- characters -----

  const BARE_KEY_CHARS: string := LOWER + UPPER + "0123456789-_"

  lemma BareChars(c: char)
    ensures IsBareKeyChar(c) <==> c in BARE_KEY_CHARS
  {
    Letters(c);
    assert c in "0123456789-_" <==> '0' <= c <= '9' || c == '-' || c == '_';
  }

  lemma BlankChars(c: char)
    ensures IsInline(c) <==> c in " \t"
    ensures IsSpace(c) <==> c in " \t\r\n"
  {
  }

  /** A bare key is the longest run of its characters. */
  lemma {:induction false} BareKeyRun(k: string, rest: string)
    requires (forall i :: 0 <= i < |k| ==> k[i] in BARE_KEY_CHARS) && (rest != [] ==> rest[0] !in BARE_KEY_CHARS)
    ensures BareRun(k + rest) == |k|
  {
    if k == [] {
      assert k + rest == rest;
      if rest != [] { BareChars(rest[0]); }
    } else {
      BareChars(k[0]);
      hide IsBareKeyChar;
      assert (k + rest)[0] == k[0] && (k + rest)[1..] == k[1..] + rest;
      BareKeyRun(k[1..], rest);
    }
  }

  lemma BareKeyExactly(k: string, rest: string)
    requires k != [] && forall i :: 0 <= i < |k| ==> k[i] in BARE_KEY_CHARS
    requires rest != [] ==> rest[0] !in BARE_KEY_CHARS
    ensures KeyPart(k + rest) == Good(k, rest)
  {
    BareKeyRun(k, rest);
    BareChars(k[0]);
    assert (k + rest)[0] == k[0] && (k + rest)[..|k|] == k && (k + rest)[|k|..] == rest;
  }
}
