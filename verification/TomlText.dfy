/** Concrete TOML text, with every freedom of layout and spelling the parser allows, and
    the proof that the scanner reads back what the text was written to mean. */
module TomlText {
  import opened Prelude
  import opened Numerals
  import Utf8
  import opened TomlTree
  import opened TomlSyntax

  // ----- blanks -----

  predicate InlineSpace(w: string) {
    forall i :: 0 <= i < |w| ==> IsInline(w[i])
  }

  /** Whitespace, newlines and comments that end before the text does. */
  predicate Blank(w: string)
    decreases |w|
  {
    w == [] || (IsSpace(w[0]) && Blank(w[1..]))
    || (w[0] == '#' && DropComment(w[1..]) != [] && Blank(DropComment(w[1..])))
  }

  lemma {:induction false} SkipInlinePast(w: string, x: string)
    requires InlineSpace(w)
    ensures SkipInline(w + x) == SkipInline(x)
  {
    if w == [] {
      assert w + x == x;
    } else {
      assert (w + x)[1..] == w[1..] + x;
      SkipInlinePast(w[1..], x);
    }
  }

  lemma {:induction false} DropCommentPast(w: string, x: string)
    requires DropComment(w) != []
    ensures DropComment(w + x) == DropComment(w) + x
  {
    if w[0] == '\n' {
    } else {
      assert (w + x)[1..] == w[1..] + x;
      DropCommentPast(w[1..], x);
    }
  }

  lemma {:induction false} SkipBlankPast(w: string, x: string)
    requires Blank(w)
    ensures SkipBlank(w + x) == SkipBlank(x)
    decreases |w|
  {
    if w == [] {
      assert w + x == x;
    } else {
      assert (w + x)[1..] == w[1..] + x;
      if IsSpace(w[0]) {
        SkipBlankPast(w[1..], x);
      } else {
        DropCommentPast(w[1..], x);
        SkipBlankPast(DropComment(w[1..]), x);
      }
    }
  }

  lemma {:induction false} InlineIsBlank(w: string)
    requires InlineSpace(w)
    ensures Blank(w)
  {
    if w == [] {
    } else {
      InlineIsBlank(w[1..]);
    }
  }

  // ----- strings -----

  /** One character position of a basic string: itself, a one-letter escape, or \u / \U. */
  datatype CChar = Raw(c: char) | Esc(c: char) | Uni4(h: string) | Uni8(h: string)

  predicate WfHex(h: string, n: nat) {
    |h| == n && AllHex(h) && Hex(h) < 0x1_0000_0000 && Utf8.IsScalarValue(Utf8.ToRune(Hex(h)))
  }

  predicate WfChar(c: CChar) {
    match c
    case Raw(b) => b != '"' && b != '\\' && b != '\n'
    case Esc(b) => SimpleEscape(b).Some?
    case Uni4(h) => WfHex(h, 4)
    case Uni8(h) => WfHex(h, 8)
  }

  function CharText(c: CChar): string {
    match c
    case Raw(b) => [b]
    case Esc(b) => "\\" + [b]
    case Uni4(h) => "\\u" + h
    case Uni8(h) => "\\U" + h
  }

  /** A \u or \U escape contributes the UTF-8 encoding of its scalar value. */
  function CharMeaning(c: CChar): string
    requires WfChar(c)
  {
    match c
    case Raw(b) => [b]
    case Esc(b) => [SimpleEscape(b).value]
    case Uni4(h) => Utf8.Encode(Hex(h))
    case Uni8(h) => Utf8.Encode(Hex(h))
  }

  predicate WfChars(cs: seq<CChar>) {
    forall i :: 0 <= i < |cs| ==> WfChar(cs[i])
  }

  function CharsText(cs: seq<CChar>): string {
    if cs == [] then [] else CharText(cs[0]) + CharsText(cs[1..])
  }

  function CharsMeaning(cs: seq<CChar>): string
    requires WfChars(cs)
  {
    if cs == [] then [] else CharMeaning(cs[0]) + CharsMeaning(cs[1..])
  }

  lemma HexEscape(u: char, h: string, x: string)
    requires (u == 'u' && WfHex(h, 4)) || (u == 'U' && WfHex(h, 8))
    ensures Escape([u] + h + x) == Good(Utf8.Encode(Hex(h)), x)
  {
    var s := [u] + h + x;
    var n := |h|;
    assert s[0] == u && s[1..n + 1] == h && s[n + 1..] == x;
  }

  /** A \u or \U escape is accepted exactly when its digits denote a Unicode scalar value (the
      conversion to a signed 32-bit rune lets no other value through), and then it contributes
      that value's UTF-8 encoding. */
  lemma UnicodeEscape(s: string)
    requires s != [] && (s[0] == 'u' || s[0] == 'U')
    ensures var n := if s[0] == 'U' then 8 else 4;
            && (Escape(s).Good? <==> |s| > n && AllHex(s[1..n + 1]) && Utf8.IsScalarValue(Hex(s[1..n + 1])))
            && (Escape(s).Good? ==>
                  && Escape(s) == Good(Utf8.Encode(Hex(s[1..n + 1])), s[n + 1..])
                  && Utf8.Decode(Escape(s).value) == Some(Utf8.Rune(Hex(s[1..n + 1]), |Escape(s).value|)))
  {
    hide Utf8.Encode;
    hide Utf8.Decode;
    hide Hex;
    var n := if s[0] == 'U' then 8 else 4;
    if Escape(s).Good? {
      var v := Hex(s[1..n + 1]);
      Utf8.DecodeEncode(v, []);
      assert Utf8.Encode(v) + [] == Utf8.Encode(v);
    }
  }

  lemma LetterEscape(b: char, x: string)
    requires SimpleEscape(b).Some?
    ensures Escape([b] + x) == Good([SimpleEscape(b).value], x)
  {
    assert ([b] + x)[1..] == x;
  }

  /** An escape after its backslash. */
  lemma EscapeTail(c: CChar, x: string)
    requires !c.Raw?
    ensures CharText(c) != [] && CharText(c)[0] == '\\'
    ensures (CharText(c) + x)[1..] == match c
                                      case Esc(b) => [b] + x
                                      case Uni4(h) => ['u'] + h + x
                                      case Uni8(h) => ['U'] + h + x
                                      case _ => []
  {
  }

  lemma EscapeText(c: CChar, x: string)
    requires WfChar(c) && !c.Raw?
    ensures CharText(c)[0] == '\\'
    ensures Escape((CharText(c) + x)[1..]) == Good(CharMeaning(c), x)
  {
    hide Escape;
    hide SimpleEscape;
    hide Hex;
    hide Utf8.Encode;
    hide Utf8.IsScalarValue;
    hide AllHex;
    EscapeTail(c, x);
    match c {
      case Esc(b) => LetterEscape(b, x);
      case Uni4(h) => HexEscape('u', h, x);
      case Uni8(h) => HexEscape('U', h, x);
    }
  }

  lemma {:induction false} BasicText(cs: seq<CChar>, post: string)
    requires WfChars(cs)
    ensures BasicBody(CharsText(cs) + "\"" + post) == Good(CharsMeaning(cs), post)
  {
    if cs == [] {
      assert CharsText(cs) + "\"" + post == "\"" + post;
    } else {
      var c := cs[0];
      var x := CharsText(cs[1..]) + "\"" + post;
      var s := CharText(c) + x;
      assert CharsText(cs) + "\"" + post == s;
      BasicText(cs[1..], post);
      if c.Raw? {
        assert s[0] == c.c && s[1..] == x;
      } else {
        EscapeText(c, x);
        assert s[0] == '\\';
      }
    }
  }

  predicate WfLiteral(s: string) {
    '\'' !in s && '\n' !in s
  }

  lemma {:induction false} LiteralText(s: string, post: string)
    requires WfLiteral(s)
    ensures LiteralBody(s + "'" + post) == Good(s, post)
  {
    if s == [] {
      assert s + "'" + post == "'" + post;
    } else {
      assert (s + "'" + post)[1..] == s[1..] + "'" + post;
      LiteralText(s[1..], post);
      assert [s[0]] + s[1..] == s;
    }
  }

  /** A byte written so that a basic string can hold it. */
  function QuoteChar(b: char): CChar {
    if b == '"' then Esc('"')
    else if b == '\\' then Esc('\\')
    else if b == '\n' then Esc('n')
    else Raw(b)
  }

  function Quote(s: string): (cs: seq<CChar>)
    ensures WfChars(cs)
  {
    seq(|s|, i requires 0 <= i < |s| => QuoteChar(s[i]))
  }

  /** Quoting any byte string and reading it back gives the string. */
  lemma {:induction false} QuoteMeaning(s: string)
    ensures CharsMeaning(Quote(s)) == s
  {
    if s == [] {
    } else {
      assert Quote(s)[1..] == Quote(s[1..]);
      QuoteMeaning(s[1..]);
      assert [s[0]] + s[1..] == s;
    }
  }

  // ----- keys -----

  datatype CPart = BareKey(s: string) | BasicKey(cs: seq<CChar>) | LiteralKey(s: string)

  predicate WfPart(p: CPart) {
    match p
    case BareKey(s) => s != [] && forall i :: 0 <= i < |s| ==> IsBareKeyChar(s[i])
    case BasicKey(cs) => WfChars(cs)
    case LiteralKey(s) => WfLiteral(s)
  }

  function PartText(p: CPart): string {
    match p
    case BareKey(s) => s
    case BasicKey(cs) => "\"" + CharsText(cs) + "\""
    case LiteralKey(s) => "'" + s + "'"
  }

  function PartMeaning(p: CPart): string
    requires WfPart(p)
  {
    match p
    case BareKey(s) => s
    case BasicKey(cs) => CharsMeaning(cs)
    case LiteralKey(s) => s
  }

  lemma {:induction false} BareRunOf(s: string, post: string)
    requires forall i :: 0 <= i < |s| ==> IsBareKeyChar(s[i])
    requires post != [] ==> !IsBareKeyChar(post[0])
    ensures BareRun(s + post) == |s|
  {
    if s == [] {
      assert s + post == post;
    } else {
      assert (s + post)[1..] == s[1..] + post;
      BareRunOf(s[1..], post);
    }
  }

  lemma BareParses(b: string, post: string)
    requires WfPart(BareKey(b)) && (post != [] ==> !IsBareKeyChar(post[0]))
    ensures KeyPart(b + post) == Good(b, post)
  {
    BareRunOf(b, post);
    var s := b + post;
    assert s[0] == b[0] && s[..|b|] == b && s[|b|..] == post;
  }

  lemma QuotedParses(cs: seq<CChar>, post: string)
    requires WfChars(cs)
    ensures KeyPart("\"" + CharsText(cs) + "\"" + post) == Good(CharsMeaning(cs), post)
  {
    var s := "\"" + CharsText(cs) + "\"" + post;
    assert s[0] == '"' && s[1..] == CharsText(cs) + "\"" + post;
    BasicText(cs, post);
  }

  lemma SingleQuotedParses(b: string, post: string)
    requires WfLiteral(b)
    ensures KeyPart("'" + b + "'" + post) == Good(b, post)
  {
    var s := "'" + b + "'" + post;
    assert s[0] == '\'' && s[1..] == b + "'" + post;
    LiteralText(b, post);
  }

  lemma PartParses(p: CPart, post: string)
    requires WfPart(p) && (post != [] ==> !IsBareKeyChar(post[0]))
    ensures KeyPart(PartText(p) + post) == Good(PartMeaning(p), post)
  {
    hide KeyPart;
    match p {
      case BareKey(b) => BareParses(b, post);
      case BasicKey(cs) => QuotedParses(cs, post);
      case LiteralKey(b) => SingleQuotedParses(b, post);
    }
  }

  lemma PartHead(p: CPart)
    requires WfPart(p)
    ensures PartText(p) != [] && !IsSpace(PartText(p)[0]) && PartText(p)[0] !in "#["
  {
    match p {
      case BareKey(b) => assert IsBareKeyChar(b[0]);
      case BasicKey(cs) => assert PartText(p)[0] == '"';
      case LiteralKey(b) => assert PartText(p)[0] == '\'';
    }
  }

  /** One part of a dotted key with the spaces around it. */
  datatype CStep = CStep(before: string, part: CPart, after: string)

  predicate WfSteps(ks: seq<CStep>) {
    ks != [] && forall i :: 0 <= i < |ks| ==>
      InlineSpace(ks[i].before) && WfPart(ks[i].part) && InlineSpace(ks[i].after)
  }

  function StepsText(ks: seq<CStep>): string
    requires ks != []
  {
    ks[0].before + (PartText(ks[0].part) + (ks[0].after + (if |ks| == 1 then [] else "." + StepsText(ks[1..]))))
  }

  function StepsMeaning(ks: seq<CStep>): (path: seq<string>)
    requires WfSteps(ks)
    ensures |path| == |ks|
  {
    seq(|ks|, i requires 0 <= i < |ks| => PartMeaning(ks[i].part))
  }

  lemma StepParses(k: CStep, tail: string)
    requires InlineSpace(k.before) && WfPart(k.part) && InlineSpace(k.after)
    requires tail != [] && tail[0] in ".]="
    ensures KeyPath(k.before + (PartText(k.part) + (k.after + tail)))
         == if tail[0] == '.' then Cons(PartMeaning(k.part), KeyPath(tail[1..])) else Good([PartMeaning(k.part)], tail)
  {
    hide PartText;
    hide PartMeaning;
    hide WfPart;
    hide KeyPart;
    var x := k.after + tail;
    var u := PartText(k.part) + x;
    assert x != [] && !IsBareKeyChar(x[0]);
    PartParses(k.part, x);
    PartHead(k.part);
    SkipInlinePast(k.before, u);
    assert u[0] == PartText(k.part)[0];
    SkipInlinePast(k.after, tail);
  }

  lemma {:induction false} KeyPathText(ks: seq<CStep>, post: string)
    requires WfSteps(ks) && post != [] && post[0] in "]="
    ensures KeyPath(StepsText(ks) + post) == Good(StepsMeaning(ks), post)
    decreases |ks|
  {
    hide KeyPath;
    hide KeyPart;
    hide PartText;
    var k := ks[0];
    var dot := if |ks| == 1 then [] else "." + StepsText(ks[1..]);
    AppendRight(k.before, PartText(k.part), k.after, dot, post);
    if |ks| == 1 {
      assert dot + post == post;
      StepParses(k, post);
      assert StepsMeaning(ks) == [PartMeaning(k.part)];
    } else {
      var next := StepsText(ks[1..]) + post;
      assert dot + post == "." + next && ("." + next)[1..] == next;
      StepParses(k, "." + next);
      KeyPathText(ks[1..], post);
      assert StepsMeaning(ks) == [PartMeaning(k.part)] + StepsMeaning(ks[1..]);
    }
  }

  // ----- values -----

  /** A value as written: an array keeps its blanks, its comments and its trailing comma. */
  datatype CValue =
    | CBasic(cs: seq<CChar>)
    | CLiteral(s: string)
    | CNumber(raw: string)
    | CBool(b: bool)
    | CArray(items: seq<CItem>, comma: bool, close: string)

  datatype CItem = CItem(before: string, v: CValue, after: string)

  predicate WfNumber(raw: string) {
    && raw != [] && (raw[0] == '+' || raw[0] == '-' || IsDigit(raw[0]))
    && (forall i :: 0 <= i < |raw| ==> IsNumberChar(raw[i]))
    && !LooksLikeDate(raw) && NumberValue(raw).Some?
  }

  predicate WfValue(v: CValue) {
    match v
    case CBasic(cs) => WfChars(cs)
    case CLiteral(s) => WfLiteral(s)
    case CNumber(raw) => WfNumber(raw)
    case CBool(_) => true
    case CArray(items, comma, close) =>
      Blank(close) && (comma ==> items != []) && forall i :: 0 <= i < |items| ==> WfItem(items[i])
  }

  predicate WfItem(x: CItem) {
    Blank(x.before) && WfValue(x.v) && Blank(x.after)
  }

  function ValueText(v: CValue): string {
    match v
    case CBasic(cs) => "\"" + CharsText(cs) + "\""
    case CLiteral(s) => "'" + s + "'"
    case CNumber(raw) => raw
    case CBool(b) => if b then "true" else "false"
    case CArray(items, comma, close) => "[" + ItemsText(items, comma, close)
  }

  function ItemsText(items: seq<CItem>, comma: bool, close: string): string {
    if items == [] then close + "]"
    else
      items[0].before + (ValueText(items[0].v) + (items[0].after
      + ((if |items| > 1 || comma then "," else "") + ItemsText(items[1..], comma, close))))
  }

  /** What a value means, whatever its layout and spelling. */
  function ValueMeaning(v: CValue): Tree
    requires WfValue(v)
  {
    match v
    case CBasic(cs) => Leaf(Str(CharsMeaning(cs)))
    case CLiteral(s) => Leaf(Str(s))
    case CNumber(raw) => Leaf(NumberValue(raw).value)
    case CBool(b) => Leaf(Bool(b))
    case CArray(items, _, _) =>
      Arr(seq(|items|, i requires 0 <= i < |items| => assert WfItem(items[i]); ValueMeaning(items[i].v)))
  }

  function ItemsMeaning(items: seq<CItem>): seq<Tree>
    requires forall i :: 0 <= i < |items| ==> WfItem(items[i])
  {
    seq(|items|, i requires 0 <= i < |items| => assert WfItem(items[i]); ValueMeaning(items[i].v))
  }

  /** Text that cannot continue a value. */
  predicate Stops(post: string) {
    post == [] || post[0] in " \t\r\n#,]"
  }

  lemma BlankStops(w: string, x: string)
    requires Blank(w) && Stops(x)
    ensures Stops(w + x)
  {
    if w == [] {
      assert w + x == x;
    }
  }

  lemma {:induction false} NumberRunOf(raw: string, post: string)
    requires forall i :: 0 <= i < |raw| ==> IsNumberChar(raw[i])
    requires Stops(post)
    ensures NumberRun(raw + post) == |raw|
  {
    if raw == [] {
      assert raw + post == post;
    } else {
      assert (raw + post)[1..] == raw[1..] + post;
      NumberRunOf(raw[1..], post);
    }
  }

  /** The first byte of a value's text. */
  lemma ValueHead(v: CValue, post: string)
    requires WfValue(v)
    ensures var s := ValueText(v) + post;
            s != [] && !IsSpace(s[0]) && s[0] !in "#],"
  {
    hide CharsText;
    hide ItemsText;
    hide NumberValue;
    var s := ValueText(v) + post;
    assert ValueText(v) != [] && s[0] == ValueText(v)[0];
  }

  lemma NotTripleBasic(cs: seq<CChar>, post: string)
    requires WfChars(cs) && Stops(post)
    ensures !IsPrefix("\"\"\"", "\"" + CharsText(cs) + "\"" + post)
  {
    var s := "\"" + CharsText(cs) + "\"" + post;
    if cs == [] {
      assert s == "\"\"" + post;
      assert |s| > 2 ==> s[2] == post[0];
      assert "\"\"\""[2] == '"';
    } else {
      var c := CharText(cs[0]);
      assert s[1] == c[0];
      assert "\"\"\""[1] == '"';
    }
  }

  lemma NotTripleLiteral(b: string, post: string)
    requires WfLiteral(b) && Stops(post)
    ensures !IsPrefix("'''", "'" + b + "'" + post)
  {
    var s := "'" + b + "'" + post;
    if b == [] {
      assert s == "''" + post;
      assert |s| > 2 ==> s[2] == post[0];
      assert "'''"[2] == '\'';
    } else {
      assert s[1] == b[0];
      assert b[0] in b;
      assert "'''"[1] == '\'';
    }
  }

  lemma BasicParses(cs: seq<CChar>, post: string)
    requires WfChars(cs) && Stops(post)
    ensures Value("\"" + CharsText(cs) + "\"" + post) == Good(Leaf(Str(CharsMeaning(cs))), post)
  {
    var s := "\"" + CharsText(cs) + "\"" + post;
    assert s[1..] == CharsText(cs) + "\"" + post;
    NotTripleBasic(cs, post);
    BasicText(cs, post);
  }

  lemma LiteralParses(b: string, post: string)
    requires WfLiteral(b) && Stops(post)
    ensures Value("'" + b + "'" + post) == Good(Leaf(Str(b)), post)
  {
    var s := "'" + b + "'" + post;
    assert s[1..] == b + "'" + post;
    NotTripleLiteral(b, post);
    LiteralText(b, post);
  }

  lemma NumberParses(raw: string, post: string)
    requires WfNumber(raw) && Stops(post)
    ensures Value(raw + post) == Good(Leaf(NumberValue(raw).value), post)
  {
    hide NumberValue;
    hide LooksLikeDate;
    hide Items;
    var s := raw + post;
    NumberRunOf(raw, post);
    assert s[..|raw|] == raw && s[|raw|..] == post;
    assert s[0] == raw[0];
  }

  /** Reading any well-formed value text gives its meaning and stops at its end. */
  lemma {:induction false} ValueParses(v: CValue, post: string)
    requires WfValue(v) && Stops(post)
    ensures Value(ValueText(v) + post) == Good(ValueMeaning(v), post)
    decreases v, 0, 0
  {
    hide Value;
    hide NumberValue;
    hide ItemsText;
    hide CharsText;
    hide CharsMeaning;
    match v {
      case CBasic(cs) => BasicParses(cs, post);
      case CLiteral(b) => LiteralParses(b, post);
      case CNumber(raw) => NumberParses(raw, post);
      case CBool(b) => BooleanValue(b, post);
      case CArray(items, comma, close) =>
        ItemsParse(items, comma, close, post);
        ArrayValue(ItemsText(items, comma, close), ItemsMeaning(items), post);
        assert ItemsMeaning(items) == ValueMeaning(v).elems;
    }
  }

  lemma BooleanValue(b: bool, post: string)
    ensures Value((if b then "true" else "false") + post) == Good(Leaf(Bool(b)), post)
  {
    hide Boolean;
    BooleanParses(b, post);
  }

  lemma ArrayValue(text: string, xs: seq<Tree>, post: string)
    requires Items(text + post) == Good(xs, post)
    ensures Value("[" + text + post) == Good(Arr(xs), post)
  {
    hide Items;
    var s := "[" + text + post;
    assert s[0] == '[' && s[1..] == text + post;
  }

  lemma BooleanParses(b: bool, post: string)
    ensures var w := if b then "true" else "false";
            Boolean(w + post) == Good(Bool(b), post) && (w + post)[0] == w[0]
  {
    var w := if b then "true" else "false";
    var s := w + post;
    assert s[..|w|] == w && s[|w|..] == post;
    if !b {
      assert s[0] == 'f';
      assert "true"[0] == 't';
      assert |s| >= 4 ==> s[..4][0] == s[0];
    }
  }

  /** One element and what follows it. */
  lemma ItemParses(x: CItem, rest: string)
    requires WfItem(x) && SkipBlank(rest) != [] && SkipBlank(rest)[0] in ",]"
    requires Value(ValueText(x.v) + (x.after + rest)) == Good(ValueMeaning(x.v), x.after + rest)
    ensures Items(x.before + (ValueText(x.v) + (x.after + rest)))
         == var r := SkipBlank(rest);
            if r[0] == ',' then PrependItems([ValueMeaning(x.v)], Items(r[1..])) else Good([ValueMeaning(x.v)], r[1..])
  {
    var u := ValueText(x.v) + (x.after + rest);
    SkipBlankPast(x.before, u);
    ValueHead(x.v, x.after + rest);
    SkipBlankPast(x.after, rest);
  }

  lemma {:induction false} ItemsParse(items: seq<CItem>, comma: bool, close: string, post: string)
    requires Blank(close) && forall i :: 0 <= i < |items| ==> WfItem(items[i])
    ensures Items(ItemsText(items, comma, close) + post) == Good(ItemsMeaning(items), post)
    decreases items, 1, |items|
  {
    hide Value;
    hide Items;
    hide ItemsText;
    hide SkipBlank;
    hide ValueMeaning;
    hide ValueText;
    hide WfValue;
    hide Blank;
    hide Stops;
    if items == [] {
      NoItemsParse(comma, close, post);
    } else {
      var x := items[0];
      var more := |items| > 1 || comma;
      var rest := (if more then "," else "") + (ItemsText(items[1..], comma, close) + post);
      SplitFirst(items, comma, close, post, rest);
      SeparatorStops(items[1..], comma, close, post, more);
      BlankStops(x.after, rest);
      ValueParses(x.v, x.after + rest);
      AfterItem(items, comma, close, post, rest);
      ItemParses(x, rest);
      if more {
        ItemsParse(items[1..], comma, close, post);
        assert ItemsMeaning(items) == [ValueMeaning(x.v)] + ItemsMeaning(items[1..]);
      } else {
        assert ItemsMeaning(items) == [ValueMeaning(x.v)];
      }
    }
  }

  lemma NoItemsParse(comma: bool, close: string, post: string)
    requires Blank(close)
    ensures Items(ItemsText([], comma, close) + post) == Good([], post)
  {
    assert ItemsText([], comma, close) + post == close + ("]" + post);
    SkipBlankPast(close, "]" + post);
    assert ("]" + post)[1..] == post;
  }

  lemma SplitFirst(items: seq<CItem>, comma: bool, close: string, post: string, rest: string)
    requires items != []
    requires rest == (if |items| > 1 || comma then "," else "") + (ItemsText(items[1..], comma, close) + post)
    ensures var x := items[0];
            ItemsText(items, comma, close) + post == x.before + (ValueText(x.v) + (x.after + rest))
  {
    hide ValueText;
    var x := items[0];
    var sep := if |items| > 1 || comma then "," else "";
    var tail := ItemsText(items[1..], comma, close);
    ItemsUnfold(items, comma, close);
    hide ItemsText;
    AppendRight(x.before, ValueText(x.v), x.after, sep + tail, post);
    AppendOnce(sep, tail, post);
  }

  lemma ItemsUnfold(items: seq<CItem>, comma: bool, close: string)
    requires items != []
    ensures ItemsText(items, comma, close)
         == items[0].before + (ValueText(items[0].v) + (items[0].after
            + ((if |items| > 1 || comma then "," else "") + ItemsText(items[1..], comma, close))))
  {
  }

  lemma AppendOnce(a: string, b: string, c: string)
    ensures a + b + c == a + (b + c)
  {
  }

  lemma AfterItem(items: seq<CItem>, comma: bool, close: string, post: string, rest: string)
    requires Blank(close) && items != []
    requires var more := |items| > 1 || comma;
             rest == (if more then "," else "") + (ItemsText(items[1..], comma, close) + post)
    ensures var r := SkipBlank(rest);
            if |items| > 1 || comma then r != [] && r[0] == ',' && r[1..] == ItemsText(items[1..], comma, close) + post
            else r == "]" + post && r[1..] == post
  {
    if |items| > 1 || comma {
      assert rest[0] == ',' && SkipBlank(rest) == rest;
    } else {
      assert items[1..] == [];
      assert rest == close + ("]" + post);
      SkipBlankPast(close, "]" + post);
    }
  }

  lemma SeparatorStops(items: seq<CItem>, comma: bool, close: string, post: string, more: bool)
    requires Blank(close) && (!more ==> items == [])
    ensures Stops((if more then "," else "") + (ItemsText(items, comma, close) + post))
  {
    if !more {
      var t := ItemsText(items, comma, close) + post;
      assert "" + t == t == close + ("]" + post);
      BlankStops(close, "]" + post);
    }
  }
}
