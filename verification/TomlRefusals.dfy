/** Where scanning a text stops and with which error: after any well-formed text up to the place,
    each continuation that the format does not allow is refused there for what it is. */
module TomlRefusals {
  import opened Prelude
  import opened Numerals
  import Utf8
  import opened TomlTree
  import opened TomlSyntax
  import opened TomlText
  import opened TomlLiterals
  import opened TomlDocument
  import opened TomlRuns
  import TomlEffects

  // ----- strings -----

  /** The characters of a basic string are read past. */
  lemma {:induction false} CharsPast(cs: seq<CChar>, x: string)
    requires WfChars(cs)
    ensures BasicBody(CharsText(cs) + x) == Prepend(CharsMeaning(cs), BasicBody(x))
  {
    hide CharMeaning;
    if cs == [] {
      assert CharsText(cs) + x == x;
      var r := BasicBody(x);
      assert r.Good? ==> [] + r.value == r.value;
    } else {
      var c := cs[0];
      var tail := CharsText(cs[1..]) + x;
      var s := CharText(c) + tail;
      assert CharsText(cs) + x == s;
      CharsPast(cs[1..], x);
      CharPast(c, tail);
      PrependTwice(CharMeaning(c), CharsMeaning(cs[1..]), BasicBody(x));
      hide BasicBody;
      assert CharsMeaning(cs) == CharMeaning(c) + CharsMeaning(cs[1..]);
    }
  }

  lemma PrependTwice(a: string, b: string, r: Parsed<string>)
    ensures Prepend(a, Prepend(b, r)) == Prepend(a + b, r)
  {
    assert r.Good? ==> a + (b + r.value) == a + b + r.value;
  }

  lemma CharPast(c: CChar, x: string)
    requires WfChar(c)
    ensures BasicBody(CharText(c) + x) == Prepend(CharMeaning(c), BasicBody(x))
  {
    var s := CharText(c) + x;
    if c.Raw? {
      assert s[0] == c.c && s[1..] == x;
    } else {
      hide Escape;
      EscapeText(c, x);
      assert s[0] == '\\';
    }
  }

  const HEX_DIGITS := "0123456789abcdefABCDEF"

  /** What is wrong with the text after a backslash. */
  predicate BadEscape(s: string, k: Kind) {
    if s == [] then k == UnterminatedEscape
    else if s[0] == 'u' || s[0] == 'U' then
      var n := if s[0] == 'u' then 4 else 8;
      if |s| <= n then k == TruncatedEscape
      else if exists i :: 1 <= i <= n && s[i] !in HEX_DIGITS then k == InvalidEscape
      else k == NotAScalarValue && AllHex(s[1..n + 1]) && !Utf8.IsScalarValue(Hex(s[1..n + 1]))
    else s[0] !in ESCAPES && k == UnknownEscape
  }

  lemma {:induction false} HexBound(s: string)
    requires AllHex(s)
    ensures Hex(s) < Power(16, |s|)
  {
    if s == [] {
    } else {
      HexBound(s[..|s| - 1]);
    }
  }

  lemma FitsRune(s: string)
    requires AllHex(s) && 0 < |s| <= 8
    ensures ParseHex32(s) == Some(Hex(s))
  {
    HexBound(s);
    PowersOfSixteen(|s|);
    hide Hex;
    hide Power;
  }

  lemma PowersOfSixteen(n: nat)
    requires n <= 8
    ensures Power(16, n) <= 0x1_0000_0000
  {
    assert Power(16, 0) == 1;
    assert Power(16, 1) == 16;
    assert Power(16, 2) == 256;
    assert Power(16, 3) == 4096;
    assert Power(16, 4) == 65536;
    assert Power(16, 5) == 0x10_0000;
    assert Power(16, 6) == 0x100_0000;
    assert Power(16, 7) == 0x1000_0000;
    assert Power(16, 8) == 0x1_0000_0000;
  }

  lemma AllHexDigits(s: string)
    ensures AllHex(s) <==> forall i :: 0 <= i < |s| ==> s[i] in HEX_DIGITS
  {
    forall c: char ensures IsHex(c) <==> c in HEX_DIGITS {
      HexOnly(c);
    }
    hide IsHex;
  }

  lemma DigitsWrong(s: string, n: nat)
    requires |s| > n && n in {4, 8}
    ensures (exists i :: 1 <= i <= n && s[i] !in HEX_DIGITS) <==> ParseHex32(s[1..n + 1]).None?
    ensures ParseHex32(s[1..n + 1]).Some? ==> AllHex(s[1..n + 1]) && ParseHex32(s[1..n + 1]) == Some(Hex(s[1..n + 1]))
  {
    var digits := s[1..n + 1];
    AllHexDigits(digits);
    assert forall i :: 1 <= i <= n ==> s[i] == digits[i - 1];
    if AllHex(digits) {
      FitsRune(digits);
      hide ParseHex32;
      assert forall i :: 0 <= i < n ==> digits[i] in HEX_DIGITS;
    } else {
      var i :| 0 <= i < n && digits[i] !in HEX_DIGITS;
      assert s[i + 1] !in HEX_DIGITS;
    }
  }

  lemma UnicodeRefused(s: string, k: Kind)
    requires s != [] && (s[0] == 'u' || s[0] == 'U')
    ensures (Escape(s).Bad? && Escape(s).kind == k) <==> BadEscape(s, k)
    ensures Escape(s).Bad? ==> Escape(s).rest == s[1..]
  {
    hide Hex;
    hide AllHex;
    hide Utf8.Encode;
    hide Utf8.IsScalarValue;
    var n := if s[0] == 'u' then 4 else 8;
    assert SimpleEscape(s[0]).None?;
    hide SimpleEscape;
    if |s| > n {
      DigitsWrong(s, n);
      hide ParseHex32;
      if ParseHex32(s[1..n + 1]).Some? {
        SameScalar(Hex(s[1..n + 1]));
      }
    }
  }

  lemma SameScalar(v: nat)
    requires v < 0x1_0000_0000
    ensures Utf8.IsScalarValue(Utf8.ToRune(v)) <==> Utf8.IsScalarValue(v)
  {
  }

  /** An escape is refused exactly for what is wrong with it. */
  lemma EscapeRefused(s: string, k: Kind)
    ensures (Escape(s).Bad? && Escape(s).kind == k) <==> BadEscape(s, k)
    ensures Escape(s).Bad? ==> Escape(s).rest == if s == [] then s else s[1..]
  {
    if s == [] {
    } else if s[0] == 'u' || s[0] == 'U' {
      UnicodeRefused(s, k);
      hide Escape;
      hide BadEscape;
    } else {
      LettersOnly(s[0]);
    }
  }

  lemma LettersOnly(c: char)
    ensures c in ESCAPES <==> SimpleEscape(c).Some?
  {
    assert ESCAPES == ['b', 't', 'n', 'f', 'r', '"', '\\'];
  }

  /** What ends a basic string too early, and the text that is left then. */
  predicate BadBasic(x: string, k: Kind, rest: string) {
    if x == [] then k == UnterminatedString && rest == x
    else if x[0] == '\n' then k == NewlineInString && rest == x
    else x[0] == '\\' && BadEscape(x[1..], k) && rest == if |x| == 1 then [] else x[2..]
  }

  lemma BasicRefused(cs: seq<CChar>, x: string, k: Kind, rest: string)
    requires WfChars(cs) && BadBasic(x, k, rest)
    ensures BasicBody(CharsText(cs) + x) == Bad(k, rest)
  {
    CharsPast(cs, x);
    if x != [] {
      EscapeRefused(x[1..], k);
    }
    hide Escape;
    hide BadEscape;
  }

  /** The same for a literal string, in which nothing is escaped. */
  lemma {:induction false} LiteralRefused(s: string, x: string)
    requires WfLiteral(s) && (x == [] || x[0] == '\n')
    ensures LiteralBody(s + x) == Bad(if x == [] then UnterminatedString else NewlineInString, x)
  {
    if s == [] {
      assert s + x == x;
    } else {
      assert (s + x)[1..] == s[1..] + x;
      LiteralRefused(s[1..], x);
    }
  }

  // ----- keys -----

  /** What cannot begin a part of a key. */
  predicate BadPart(x: string, k: Kind, rest: string) {
    if x == [] then k == EndInKey && rest == x
    else if x[0] == '"' then BasicBody(x[1..]) == Bad(k, rest)
    else if x[0] == '\'' then LiteralBody(x[1..]) == Bad(k, rest)
    else x[0] !in " \t" && x[0] !in BARE_KEY_CHARS && k == BadKeyChar && rest == x
  }

  /** The parts of a dotted key, each with its dot. */
  function DottedText(ks: seq<CStep>): string {
    if ks == [] then [] else ks[0].before + (PartText(ks[0].part) + (ks[0].after + ("." + DottedText(ks[1..]))))
  }

  predicate WfDotted(ks: seq<CStep>) {
    ks == [] || WfSteps(ks)
  }

  lemma BadPartRead(x: string, k: Kind, rest: string)
    requires BadPart(x, k, rest) && x != []
    ensures KeyPart(x) == Bad(k, rest) && SkipInline(x) == x
  {
    hide BasicBody;
    hide LiteralBody;
    hide BareRun;
    BareChars(x[0]);
    hide IsBareKeyChar;
  }

  lemma PartRefused(w: string, x: string, k: Kind, rest: string)
    requires InlineSpace(w) && BadPart(x, k, rest)
    ensures KeyPath(w + x) == Bad(k, rest)
  {
    SkipInlinePast(w, x);
    if x != [] {
      BadPartRead(x, k, rest);
      hide BadPart;
      hide KeyPart;
    }
    hide SkipInline;
  }

  /** A dotted key is refused at its first bad part. */
  lemma {:induction false} KeyRefused(ks: seq<CStep>, w: string, x: string, k: Kind, rest: string)
    requires WfDotted(ks) && InlineSpace(w) && BadPart(x, k, rest)
    ensures KeyPath(DottedText(ks) + (w + x)) == Bad(k, rest)
  {
    hide BadPart;
    hide KeyPath;
    hide PartText;
    if ks == [] {
      assert DottedText(ks) + (w + x) == w + x;
      PartRefused(w, x, k, rest);
    } else {
      var s := ks[0];
      var tail := "." + (DottedText(ks[1..]) + (w + x));
      AppendRight(s.before, PartText(s.part), s.after, "." + DottedText(ks[1..]), w + x);
      AppendOnce(".", DottedText(ks[1..]), w + x);
      assert DottedText(ks) + (w + x) == s.before + (PartText(s.part) + (s.after + tail));
      StepParses(s, tail);
      assert tail[1..] == DottedText(ks[1..]) + (w + x);
      KeyRefused(ks[1..], w, x, k, rest);
    }
  }

  /** Text that ends a dotted key: no space, no dot, and nothing that would lengthen a bare part. */
  predicate EndsKey(ks: seq<CStep>, x: string)
    requires ks != []
  {
    x == [] || (x[0] !in " \t." && (ks[|ks| - 1].after != [] || x[0] !in BARE_KEY_CHARS))
  }

  lemma LastStep(k: CStep, x: string)
    requires InlineSpace(k.before) && WfPart(k.part) && InlineSpace(k.after) && EndsKey([k], x)
    ensures KeyPath(k.before + (PartText(k.part) + (k.after + x))) == Good([PartMeaning(k.part)], x)
  {
    hide PartText;
    hide PartMeaning;
    hide WfPart;
    hide KeyPart;
    assert [k][0] == k;
    var y := k.after + x;
    var u := PartText(k.part) + y;
    if y != [] {
      BareChars(y[0]);
      assert k.after != [] ==> y[0] == k.after[0];
    }
    hide IsBareKeyChar;
    PartParses(k.part, y);
    PartHead(k.part);
    SkipInlinePast(k.before, u);
    assert u[0] == PartText(k.part)[0];
    SkipInlinePast(k.after, x);
  }

  lemma {:induction false} KeyEnds(ks: seq<CStep>, x: string)
    requires WfSteps(ks) && EndsKey(ks, x)
    ensures KeyPath(StepsText(ks) + x) == Good(StepsMeaning(ks), x)
  {
    hide KeyPath;
    hide PartText;
    hide PartMeaning;
    hide WfPart;
    hide InlineSpace;
    var k := ks[0];
    var dot := if |ks| == 1 then [] else "." + StepsText(ks[1..]);
    AppendRight(k.before, PartText(k.part), k.after, dot, x);
    if |ks| == 1 {
      assert dot + x == x && ks == [k];
      LastStep(k, x);
      assert StepsMeaning(ks) == [PartMeaning(k.part)];
    } else {
      var next := StepsText(ks[1..]) + x;
      assert dot + x == "." + next && ("." + next)[1..] == next;
      StepParses(k, "." + next);
      KeyEnds(ks[1..], x);
      assert StepsMeaning(ks) == [PartMeaning(k.part)] + StepsMeaning(ks[1..]);
    }
  }

  // ----- values -----

  /** What cannot begin a value, or begins one that is refused. */
  predicate BadValue(x: string, k: Kind, rest: string) {
    if x == [] then k == ExpectedValue && rest == x
    else if IsPrefix("\"\"\"", x) || IsPrefix("'''", x) then k == MultilineString && rest == x
    else if x[0] == '"' then BasicBody(x[1..]) == Bad(k, rest)
    else if x[0] == '\'' then LiteralBody(x[1..]) == Bad(k, rest)
    else if x[0] == '[' then Items(x[1..]) == Bad(k, rest)
    else if x[0] == '{' then k == InlineTable && rest == x
    else if x[0] in "+-0123456789" then Number(x) == Bad(k, rest)
    else !IsPrefix("true", x) && !IsPrefix("false", x) && k == UnexpectedValue && rest == x
  }

  lemma ValueRefused(x: string, k: Kind, rest: string)
    requires BadValue(x, k, rest)
    ensures Value(x) == Bad(k, rest)
  {
    hide BasicBody;
    hide LiteralBody;
    hide Items;
    hide Number;
    if x != [] {
      NumberHead(x[0]);
      hide IsDigit;
      HeadOfPrefix("\"\"\"", x);
      HeadOfPrefix("'''", x);
      HeadOfPrefix("true", x);
      HeadOfPrefix("false", x);
      hide IsPrefix;
    }
  }

  lemma NumberHead(c: char)
    ensures c in "+-0123456789" <==> c == '+' || c == '-' || IsDigit(c)
  {
  }

  lemma HeadOfPrefix(p: string, x: string)
    requires p != [] && x != []
    ensures IsPrefix(p, x) ==> x[0] == p[0]
  {
    if IsPrefix(p, x) {
      assert x[..|p|][0] == x[0];
    }
  }

  /** Elements of an array, each with its comma. */
  function ElementsText(items: seq<CItem>): string {
    if items == [] then []
    else items[0].before + (ValueText(items[0].v) + (items[0].after + ("," + ElementsText(items[1..]))))
  }

  predicate WfItems(items: seq<CItem>) {
    forall i :: 0 <= i < |items| ==> WfItem(items[i])
  }

  lemma {:induction false} ElementsPast(items: seq<CItem>, x: string)
    requires WfItems(items)
    ensures Items(x).Bad? ==> Items(ElementsText(items) + x) == Items(x)
  {
    hide Items;
    hide ValueText;
    hide ValueMeaning;
    hide WfItem;
    if items == [] {
      assert ElementsText(items) + x == x;
    } else {
      var y := items[0];
      var rest := "," + (ElementsText(items[1..]) + x);
      AppendRight(y.before, ValueText(y.v), y.after, "," + ElementsText(items[1..]), x);
      AppendOnce(",", ElementsText(items[1..]), x);
      assert ElementsText(items) + x == y.before + (ValueText(y.v) + (y.after + rest));
      ElementPast(y, rest);
      assert rest[1..] == ElementsText(items[1..]) + x;
      ElementsPast(items[1..], x);
    }
  }

  lemma ElementPast(y: CItem, rest: string)
    requires WfItem(y) && rest != [] && rest[0] == ','
    ensures Items(y.before + (ValueText(y.v) + (y.after + rest))) == PrependItems([ValueMeaning(y.v)], Items(rest[1..]))
  {
    hide Items;
    hide Value;
    hide ValueText;
    hide ValueMeaning;
    hide WfValue;
    assert SkipBlank(rest) == rest;
    BlankStops(y.after, rest);
    ValueParses(y.v, y.after + rest);
    ItemParses(y, rest);
  }

  /** What is wrong where an element or the closing bracket may come. */
  predicate BadElement(x: string, k: Kind, rest: string) {
    if SkipBlank(x) == [] then k == UnterminatedArray && rest == []
    else x[0] !in " \t\r\n#]" && BadValue(x, k, rest)
  }

  /** An array is refused at its first bad element ... */
  lemma ElementRefused(items: seq<CItem>, w: string, x: string, k: Kind, rest: string)
    requires WfItems(items) && Blank(w) && BadElement(x, k, rest)
    ensures Items(ElementsText(items) + (w + x)) == Bad(k, rest)
  {
    hide BadValue;
    SkipBlankPast(w, x);
    if SkipBlank(x) != [] {
      assert SkipBlank(x) == x;
      ValueRefused(x, k, rest);
    }
    hide Value;
    assert Items(w + x) == Bad(k, rest);
    hide Items;
    ElementsPast(items, w + x);
  }

  /** ... or where neither a comma nor the closing bracket follows an element. */
  lemma CommaMissing(items: seq<CItem>, y: CItem, x: string)
    requires WfItems(items) && WfItem(y)
    requires if SkipBlank(x) == [] then Stops(x) else y.after != [] && x[0] !in " \t\r\n#,]"
    ensures Items(ElementsText(items) + (y.before + (ValueText(y.v) + (y.after + x))))
         == if SkipBlank(x) == [] then Bad(UnterminatedArray, []) else Bad(ExpectedComma, x)
  {
    var tail := ValueText(y.v) + (y.after + x);
    LastElement(y, x);
    hide Items;
    ElementsPast(items, y.before + tail);
  }

  lemma LastElement(y: CItem, x: string)
    requires WfItem(y) && if SkipBlank(x) == [] then Stops(x) else y.after != [] && x[0] !in " \t\r\n#,]"
    ensures Items(y.before + (ValueText(y.v) + (y.after + x)))
         == if SkipBlank(x) == [] then Bad(UnterminatedArray, []) else Bad(ExpectedComma, x)
  {
    hide Value;
    hide ValueText;
    hide ValueMeaning;
    hide WfValue;
    var r := y.after + x;
    var u := ValueText(y.v) + r;
    if y.after == [] {
      assert r == x;
    } else {
      assert r[0] == y.after[0];
      BlankHeads(y.after);
    }
    ValueParses(y.v, r);
    ValueHead(y.v, r);
    SkipBlankPast(y.before, u);
    SkipBlankPast(y.after, x);
    assert SkipBlank(u) == u;
    assert SkipBlank(x) != [] ==> SkipBlank(x) == x;
  }

  lemma BlankHeads(w: string)
    requires Blank(w) && w != []
    ensures w[0] in " \t\r\n#"
  {
  }

  // ----- lines -----

  /** A header whose key is refused, or that is not closed. */
  lemma HeaderRefused(text: string, k: Kind, rest: string)
    requires text != [] && text[0] != '[' && KeyPath(text) == Bad(k, rest)
    ensures Line("[" + text) == Bad(k, rest)
  {
    hide KeyPath;
    assert ("[" + text)[1..] == text;
  }

  lemma ArrayHeaderRefused(text: string, k: Kind, rest: string)
    requires KeyPath(text) == Bad(k, rest)
    ensures Line("[[" + text) == Bad(k, rest)
  {
    hide KeyPath;
    assert ("[[" + text)[2..] == text;
  }

  lemma HeaderUnclosed(ks: seq<CStep>, x: string)
    requires WfSteps(ks) && EndsKey(ks, x) && (x != [] ==> x[0] != ']')
    ensures Line("[" + (StepsText(ks) + x)) == Bad(UnclosedHeader, x)
    ensures Line("[[" + (StepsText(ks) + x)) == Bad(UnclosedHeader, x)
  {
    hide KeyPath;
    var u := StepsText(ks) + x;
    StepsHead(ks, x);
    KeyEnds(ks, x);
    assert ("[" + u)[1..] == u && ("[[" + u)[2..] == u;
  }

  lemma ArrayHeaderUnclosed(ks: seq<CStep>, x: string)
    requires WfSteps(ks) && (x != [] ==> x[0] != ']')
    ensures Line("[[" + (StepsText(ks) + ("]" + x))) == Bad(UnclosedArrayHeader, x)
  {
    hide KeyPath;
    var u := StepsText(ks) + ("]" + x);
    KeyPathText(ks, "]" + x);
    assert ("[[" + u)[2..] == u && ("]" + x)[1..] == x;
  }

  /** A key that is refused, has no equals sign, or has a value that is refused. */
  lemma KeyLineRefused(text: string, k: Kind, rest: string)
    requires text != [] && text[0] != '[' && KeyPath(text) == Bad(k, rest)
    ensures Line(text) == Bad(k, rest)
  {
    hide KeyPath;
  }

  lemma EqualsMissing(ks: seq<CStep>, x: string)
    requires WfSteps(ks) && EndsKey(ks, x) && (x != [] ==> x[0] != '=')
    ensures Line(StepsText(ks) + x) == Bad(ExpectedEquals, x)
  {
    hide KeyPath;
    StepsHead(ks, x);
    KeyEnds(ks, x);
  }

  lemma KeyValueRefused(ks: seq<CStep>, gap: string, x: string, k: Kind, rest: string)
    requires WfSteps(ks) && InlineSpace(gap) && (x != [] ==> x[0] !in " \t") && BadValue(x, k, rest)
    ensures Line(StepsText(ks) + ("=" + (gap + x))) == Bad(k, rest)
  {
    hide KeyPath;
    hide Value;
    hide BadValue;
    var w := gap + x;
    StepsHead(ks, "=" + w);
    KeyPathText(ks, "=" + w);
    assert SkipInline("=" + w) == "=" + w && ("=" + w)[1..] == w;
    SkipInlinePast(gap, x);
    assert SkipInline(x) == x;
    ValueRefused(x, k, rest);
  }

  lemma EndRefused(trail: string, x: string)
    requires InlineSpace(trail) && x != [] && x[0] !in " \t\r\n#"
    ensures LineEnd(trail + x) == Bad(TrailingText, x)
  {
    SkipInlinePast(trail, x);
    assert SkipInline(x) == x;
  }

  /** Anything but blanks and a comment after a statement; a value has to be set off from it. */
  lemma TrailingRefused(b: CBody, trail: string, x: string)
    requires WfBody(b) && InlineSpace(trail) && x != [] && x[0] !in " \t\r\n#" && (b.CKeyVal? ==> trail != [])
    ensures Line(BodyText(b) + (trail + x)) == Bad(TrailingText, x)
  {
    hide Line;
    hide LineEnd;
    hide BodyText;
    hide InlineSpace;
    EndRefused(trail, x);
    match b {
      case CHeader(ks) => HeaderTrailing(ks, trail + x);
      case CArrayHeader(ks) => ArrayHeaderTrailing(ks, trail + x);
      case CKeyVal(ks, gap, v) => KeyTrailing(ks, gap, v, trail, x);
    }
  }

  lemma HeaderThenEnd(ks: seq<CStep>, x: string)
    requires WfSteps(ks)
    ensures Line("[" + (StepsText(ks) + ("]" + x))) == Ended(Header(StepsMeaning(ks)), x)
  {
    hide KeyPath;
    hide LineEnd;
    var u := StepsText(ks) + ("]" + x);
    assert ("[" + u)[1..] == u && ("]" + x)[1..] == x;
    StepsHead(ks, "]" + x);
    KeyPathText(ks, "]" + x);
    hide StepsText;
    hide StepsMeaning;
  }

  lemma ArrayHeaderThenEnd(ks: seq<CStep>, x: string)
    requires WfSteps(ks)
    ensures Line("[[" + (StepsText(ks) + ("]]" + x))) == Ended(ArrayHeader(StepsMeaning(ks)), x)
  {
    hide KeyPath;
    hide LineEnd;
    var u := StepsText(ks) + ("]]" + x);
    assert ("[[" + u)[2..] == u && ("]]" + x)[2..] == x;
    KeyPathText(ks, "]]" + x);
    hide StepsText;
    hide StepsMeaning;
  }

  lemma HeaderTrailing(ks: seq<CStep>, x: string)
    requires WfSteps(ks) && LineEnd(x).Bad?
    ensures Line(BodyText(CHeader(ks)) + x) == Bad(LineEnd(x).kind, LineEnd(x).rest)
  {
    hide Line;
    hide LineEnd;
    hide StepsText;
    hide StepsMeaning;
    assert ks != [];
    hide WfSteps;
    assert BodyText(CHeader(ks)) + x == "[" + (StepsText(ks) + ("]" + x));
    HeaderThenEnd(ks, x);
  }

  lemma ArrayHeaderTrailing(ks: seq<CStep>, x: string)
    requires WfSteps(ks) && LineEnd(x).Bad?
    ensures Line(BodyText(CArrayHeader(ks)) + x) == Bad(LineEnd(x).kind, LineEnd(x).rest)
  {
    hide Line;
    hide LineEnd;
    hide StepsText;
    hide StepsMeaning;
    assert ks != [];
    hide WfSteps;
    assert BodyText(CArrayHeader(ks)) + x == "[[" + (StepsText(ks) + ("]]" + x));
    ArrayHeaderThenEnd(ks, x);
  }

  lemma KeyTrailing(ks: seq<CStep>, gap: string, v: CValue, trail: string, x: string)
    requires WfBody(CKeyVal(ks, gap, v)) && InlineSpace(trail) && trail != [] && LineEnd(trail + x).Bad?
    ensures Line(BodyText(CKeyVal(ks, gap, v)) + (trail + x)) == Bad(LineEnd(trail + x).kind, LineEnd(trail + x).rest)
  {
    hide KeyPath;
    hide LineEnd;
    hide Value;
    hide ValueText;
    hide ValueMeaning;
    hide WfValue;
    var post := trail + x;
    var w := gap + (ValueText(v) + post);
    AppendRight(StepsText(ks), "=", gap, ValueText(v), post);
    assert BodyText(CKeyVal(ks, gap, v)) + post == StepsText(ks) + ("=" + w);
    StepsHead(ks, "=" + w);
    KeyPathText(ks, "=" + w);
    assert SkipInline("=" + w) == "=" + w && ("=" + w)[1..] == w;
    SkipInlinePast(gap, ValueText(v) + post);
    ValueHead(v, post);
    assert post[0] == trail[0];
    ValueParses(v, post);
  }

  // ----- documents -----

  /** Lines that are read and take effect, each ended in itself. */
  predicate WfLines(ls: seq<CLine>) {
    forall i :: 0 <= i < |ls| ==> WfLine(ls[i]) && !EndsText(ls[i].end)
  }

  lemma {:induction false} LinesPast(ls: seq<CLine>, x: string, d: Doc)
    requires WfLines(ls) && Ready(d) && Exec(d, DocMeaning(ls)).Ok?
    ensures Ready(Exec(d, DocMeaning(ls)).value) && Run(DocText(ls, x), d) == Run(x, Exec(d, DocMeaning(ls)).value)
    decreases |ls|
  {
    hide Line;
    hide Apply;
    hide SkipBlank;
    if ls == [] {
    } else {
      var post := DocText(ls[1..], x);
      LineParses(ls[0], post);
      var s := DocText(ls, x);
      var st := BodyMeaning(ls[0].body);
      var rest := Line(SkipBlank(s)).rest;
      assert DocMeaning(ls)[0] == st && DocMeaning(ls)[1..] == DocMeaning(ls[1..]);
      TomlEffects.ApplyReady(d, st);
      var d1 := Apply(d, st).value;
      LinesPast(ls[1..], x, d1);
      assert Run(rest, d1) == Run(post, d1);
    }
  }

  lemma LineFails(w: string, x: string, d: Doc, k: Kind, rest: string)
    requires Ready(d) && Blank(w) && x != [] && x[0] !in " \t\r\n#" && Line(x) == Bad(k, rest)
    ensures Run(w + x, d) == Bad(k, rest)
  {
    hide Line;
    SkipBlankPast(w, x);
    assert SkipBlank(x) == x;
  }

  /** A document is refused at its first bad line, for what is wrong with that line; the error is
      placed on the line of the text that is left there. */
  lemma DocumentRefused(ls: seq<CLine>, w: string, x: string, k: Kind, rest: string)
    requires WfLines(ls) && Exec(EMPTY, DocMeaning(ls)).Ok?
    requires Blank(w) && x != [] && x[0] !in " \t\r\n#" && Line(x) == Bad(k, rest)
    ensures Run(DocText(ls, w + x), EMPTY) == Bad(k, rest) && ParseDoc(DocText(ls, w + x)) == Err(k)
  {
    hide Line;
    hide SkipBlank;
    hide DocText;
    hide DocMeaning;
    hide Exec;
    hide Run;
    LinesPast(ls, w + x, EMPTY);
    LineFails(w, x, Exec(EMPTY, DocMeaning(ls)).value, k, rest);
  }

  /** ... or at the first line whose statement the tree does not take. */
  lemma StatementRefused(ls: seq<CLine>, l: CLine, x: string, k: Kind)
    requires WfLines(ls) && Exec(EMPTY, DocMeaning(ls)).Ok? && WfLine(l) && (EndsText(l.end) ==> x == [])
    requires Ready(Exec(EMPTY, DocMeaning(ls)).value)
    requires Apply(Exec(EMPTY, DocMeaning(ls)).value, BodyMeaning(l.body)) == Err(k)
    ensures ParseDoc(DocText(ls, l.lead + (BodyText(l.body) + (l.trail + (EndText(l.end) + x))))) == Err(k)
  {
    var s := l.lead + (BodyText(l.body) + (l.trail + (EndText(l.end) + x)));
    LinesPast(ls, s, EMPTY);
    LineParses(l, x);
    hide Line;
    hide Apply;
    hide SkipBlank;
  }
}
