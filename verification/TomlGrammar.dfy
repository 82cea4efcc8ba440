/** The language of the parser: every text that scans is the text of a well-formed document, so
    that the grammar of documents as written describes exactly the accepted texts. */
module TomlGrammar {
  import opened Prelude
  import opened Numerals
  import opened TomlTree
  import opened TomlSyntax
  import opened TomlRuns
  import opened TomlText
  import opened TomlDocument

  // ----- blanks -----

  lemma {:induction false} InlineRead(s: string) returns (w: string)
    ensures InlineSpace(w) && s == w + SkipInline(s)
    ensures SkipInline(s) == s ==> w == []
  {
    if s != [] && IsInline(s[0]) {
      var w1 := InlineRead(s[1..]);
      w := [s[0]] + w1;
    } else {
      w := [];
    }
  }

  lemma {:induction false} CommentRead(s: string) returns (text: string)
    ensures '\n' !in text && s == text + DropComment(s)
    ensures DropComment(s) != [] ==> DropComment(s)[0] == '\n'
  {
    if s == [] || s[0] == '\n' {
      text := [];
    } else {
      var t := CommentRead(s[1..]);
      text := [s[0]] + t;
    }
  }

  lemma {:induction false} BlankHead(s: string)
    ensures SkipBlank(s) != [] ==> !IsSpace(SkipBlank(s)[0]) && SkipBlank(s)[0] != '#'
    ensures SkipBlank(SkipBlank(s)) == SkipBlank(s)
    decreases |s|
  {
    if s == [] {
    } else if IsSpace(s[0]) {
      BlankHead(s[1..]);
    } else if s[0] == '#' {
      BlankHead(DropComment(s[1..]));
    }
  }

  lemma {:induction false} BlankRead(s: string) returns (w: string)
    requires SkipBlank(s) != []
    ensures Blank(w) && s == w + SkipBlank(s)
    decreases |s|
  {
    if IsSpace(s[0]) {
      var w1 := BlankRead(s[1..]);
      w := [s[0]] + w1;
      assert w[1..] == w1;
    } else if s[0] == '#' {
      w := BlankComment(s);
    } else {
      w := [];
    }
  }

  lemma {:induction false} BlankComment(s: string) returns (w: string)
    requires SkipBlank(s) != [] && s[0] == '#'
    ensures Blank(w) && s == w + SkipBlank(s)
    decreases |s|, 0
  {
    CommentSkipped(s);
    hide SkipBlank;
    hide DropComment;
    hide Blank;
    var text := CommentRead(s[1..]);
    var t := DropComment(s[1..]);
    var w1 := BlankRead(t);
    BlankHead(t);
    HeadOf(w1, t, SkipBlank(t));
    w := "#" + (text + w1);
    CommentBlank(text, w1);
    Splice(s, text, w1, t, SkipBlank(t));
  }

  /** The first byte of a text that starts a line end is not in what follows the blanks. */
  lemma HeadOf(w: string, t: string, rest: string)
    requires t != [] && t[0] == '\n' && t == w + rest && (rest != [] ==> rest[0] != '\n')
    ensures w != [] && w[0] == '\n'
  {
    assert w == [] ==> t == rest;
  }

  lemma Splice(s: string, text: string, w: string, t: string, rest: string)
    requires s != [] && s[0] == '#' && s[1..] == text + t && t == w + rest
    ensures s == "#" + (text + w) + rest
  {
    assert s == "#" + s[1..];
  }

  lemma CommentSkipped(s: string)
    requires s != [] && s[0] == '#'
    ensures SkipBlank(s) == SkipBlank(DropComment(s[1..]))
  {
  }

  lemma CommentBlank(text: string, w: string)
    requires '\n' !in text && w != [] && w[0] == '\n' && Blank(w)
    ensures Blank("#" + (text + w))
  {
    CommentText(text, w[1..]);
    assert "\n" + w[1..] == w;
    assert ("#" + (text + w))[1..] == text + w;
  }

  // ----- strings -----

  lemma EscapeRead(s: string) returns (c: CChar)
    requires Escape(s).Good?
    ensures WfChar(c) && !c.Raw?
    ensures "\\" + s == CharText(c) + Escape(s).rest && CharMeaning(c) == Escape(s).value
  {
    if SimpleEscape(s[0]).Some? {
      c := Esc(s[0]);
      assert s == [s[0]] + s[1..];
    } else {
      UnicodeEscape(s);
      var n := if s[0] == 'U' then 8 else 4;
      var h := s[1..n + 1];
      assert s == [s[0]] + h + s[n + 1..];
      c := if s[0] == 'U' then Uni8(h) else Uni4(h);
    }
  }

  /** The text of a basic string from its first character on. */
  lemma {:induction false} BasicRead(s: string) returns (cs: seq<CChar>)
    requires BasicBody(s).Good?
    ensures WfChars(cs) && s == CharsText(cs) + "\"" + BasicBody(s).rest
    ensures CharsMeaning(cs) == BasicBody(s).value
    decreases |s|
  {
    if s[0] == '"' {
      cs := [];
      assert s == [] + "\"" + s[1..];
    } else if s[0] == '\\' {
      var c := EscapeRead(s[1..]);
      var rest := Escape(s[1..]).rest;
      var cs1 := BasicRead(rest);
      cs := ConsChar(s, c, cs1, rest);
    } else {
      var cs1 := BasicRead(s[1..]);
      cs := ConsChar(s, Raw(s[0]), cs1, s[1..]);
    }
  }

  lemma ConsChar(s: string, c: CChar, cs1: seq<CChar>, rest: string) returns (cs: seq<CChar>)
    requires WfChar(c) && WfChars(cs1) && s == CharText(c) + rest
    requires BasicBody(rest).Good? && rest == CharsText(cs1) + "\"" + BasicBody(rest).rest
    ensures WfChars(cs) && cs == [c] + cs1
    ensures s == CharsText(cs) + "\"" + BasicBody(rest).rest
    ensures CharsMeaning(cs) == CharMeaning(c) + CharsMeaning(cs1)
  {
    hide BasicBody;
    hide CharText;
    hide CharMeaning;
    cs := [c] + cs1;
    assert cs[1..] == cs1;
    assert CharsText(cs) == CharText(c) + CharsText(cs1);
  }

  lemma {:induction false} LiteralRead(s: string)
    requires LiteralBody(s).Good?
    ensures WfLiteral(LiteralBody(s).value) && s == LiteralBody(s).value + "'" + LiteralBody(s).rest
  {
    if s[0] == '\'' {
      assert s == [] + "'" + s[1..];
    } else {
      LiteralRead(s[1..]);
    }
  }

  // ----- keys -----

  lemma {:induction false} BareChars(s: string)
    ensures forall i :: 0 <= i < BareRun(s) ==> IsBareKeyChar(s[i])
  {
    if s == [] || !IsBareKeyChar(s[0]) {
    } else {
      BareChars(s[1..]);
    }
  }

  lemma PartRead(s: string) returns (p: CPart)
    requires s != [] && KeyPart(s).Good?
    ensures WfPart(p) && s == PartText(p) + KeyPart(s).rest && PartMeaning(p) == KeyPart(s).value
  {
    assert s == [s[0]] + s[1..];
    if s[0] == '"' {
      var cs := BasicRead(s[1..]);
      p := BasicKey(cs);
    } else if s[0] == '\'' {
      LiteralRead(s[1..]);
      p := LiteralKey(LiteralBody(s[1..]).value);
    } else {
      BareChars(s);
      p := BareKey(s[..BareRun(s)]);
    }
  }

  /** One part of a key, with the spaces around it. */
  lemma StepRead(s: string) returns (k: CStep)
    requires SkipInline(s) != [] && KeyPart(SkipInline(s)).Good?
    ensures InlineSpace(k.before) && WfPart(k.part) && InlineSpace(k.after)
    ensures PartMeaning(k.part) == KeyPart(SkipInline(s)).value
    ensures s == k.before + (PartText(k.part) + (k.after + SkipInline(KeyPart(SkipInline(s)).rest)))
    ensures SkipInline(s) == s ==> k.before == []
  {
    hide KeyPart;
    hide PartText;
    hide InlineSpace;
    var before := InlineRead(s);
    var part := PartRead(SkipInline(s));
    var after := InlineRead(KeyPart(SkipInline(s)).rest);
    k := CStep(before, part, after);
  }

  lemma {:induction false} KeyPathRead(s: string) returns (ks: seq<CStep>)
    requires KeyPath(s).Good?
    ensures WfSteps(ks) && s == StepsText(ks) + KeyPath(s).rest && StepsMeaning(ks) == KeyPath(s).value
    ensures SkipInline(s) == s ==> ks[0].before == []
    decreases |s|
  {
    hide KeyPart;
    hide PartText;
    hide InlineSpace;
    hide WfPart;
    hide SkipInline;
    var k := StepRead(s);
    var s1 := SkipInline(KeyPart(SkipInline(s)).rest);
    if s1 != [] && s1[0] == '.' {
      var ks1 := KeyPathRead(s1[1..]);
      ks := [k] + ks1;
      assert s1 == "." + (StepsText(ks1) + KeyPath(s1[1..]).rest);
      ConsStep(k, ks1, KeyPath(s1[1..]).rest);
    } else {
      ks := [k];
      AppendRight(k.before, PartText(k.part), k.after, [], s1);
      assert StepsMeaning(ks) == [PartMeaning(k.part)];
    }
  }

  lemma ConsStep(k: CStep, ks: seq<CStep>, rest: string)
    requires WfSteps(ks) && InlineSpace(k.before) && WfPart(k.part) && InlineSpace(k.after)
    ensures WfSteps([k] + ks) && StepsMeaning([k] + ks) == [PartMeaning(k.part)] + StepsMeaning(ks)
    ensures StepsText([k] + ks) + rest
         == k.before + (PartText(k.part) + (k.after + ("." + (StepsText(ks) + rest))))
  {
    hide PartText;
    hide PartMeaning;
    hide InlineSpace;
    hide WfPart;
    assert ([k] + ks)[1..] == ks;
    AppendRight(k.before, PartText(k.part), k.after, "." + StepsText(ks), rest);
  }

  // ----- values -----

  lemma {:induction false} NumberChars(s: string)
    ensures forall i :: 0 <= i < NumberRun(s) ==> IsNumberChar(s[i])
  {
    if s == [] || !IsNumberChar(s[0]) {
    } else {
      NumberChars(s[1..]);
    }
  }

  lemma NumberRead(s: string) returns (raw: string)
    requires s != [] && (s[0] == '+' || s[0] == '-' || IsDigit(s[0])) && Number(s).Good?
    ensures WfNumber(raw) && s == raw + Number(s).rest && NumberValue(raw) == Some(Number(s).value)
  {
    hide NumberValue;
    hide LooksLikeDate;
    NumberChars(s);
    raw := s[..NumberRun(s)];
  }

  lemma BooleanRead(s: string) returns (b: bool)
    requires Boolean(s).Good?
    ensures s == (if b then "true" else "false") + Boolean(s).rest && Boolean(s).value == Bool(b)
  {
    b := IsPrefix("true", s);
  }

  lemma ScalarRead(s: string) returns (v: CValue)
    requires s != [] && s[0] != '[' && Value(s).Good?
    ensures WfValue(v) && s == ValueText(v) + Value(s).rest && ValueMeaning(v) == Value(s).value
  {
    hide Items;
    hide WfNumber;
    hide NumberValue;
    hide Number;
    hide Boolean;
    hide BasicBody;
    hide LiteralBody;
    hide CharsText;
    hide CharsMeaning;
    hide WfChars;
    hide WfLiteral;
    assert s == [s[0]] + s[1..];
    if s[0] == '"' {
      var cs := BasicRead(s[1..]);
      v := CBasic(cs);
    } else if s[0] == '\'' {
      LiteralRead(s[1..]);
      v := CLiteral(LiteralBody(s[1..]).value);
    } else if s[0] == 't' || s[0] == 'f' {
      var b := BooleanRead(s);
      v := CBool(b);
    } else {
      var raw := NumberRead(s);
      v := CNumber(raw);
    }
  }

  /** Every value that is read is the text of some spelling and layout of its meaning. */
  lemma {:induction false} ValueRead(s: string) returns (v: CValue)
    requires Value(s).Good?
    ensures WfValue(v) && s == ValueText(v) + Value(s).rest && ValueMeaning(v) == Value(s).value
    decreases |s|, 0, 1
  {
    assert s != [];
    hide Value;
    hide ValueText;
    hide ValueMeaning;
    hide WfValue;
    if s[0] == '[' {
      v := ArrayRead(s);
    } else {
      v := ScalarRead(s);
    }
  }

  lemma {:induction false} ArrayRead(s: string) returns (v: CValue)
    requires s != [] && s[0] == '[' && Value(s).Good?
    ensures WfValue(v) && s == ValueText(v) + Value(s).rest && ValueMeaning(v) == Value(s).value
    decreases |s|, 0, 0
  {
    ArrayIsItems(s);
    hide Value;
    hide Items;
    hide Blank;
    hide ItemsText;
    hide WfItem;
    hide ItemsMeaning;
    hide ValueText;
    hide ValueMeaning;
    var items, comma, close := ItemsRead(s[1..]);
    v := CArray(items, comma, close);
    assert s == "[" + s[1..];
    ArrayAs(items, comma, close, Items(s[1..]).rest);
  }

  lemma ArrayAs(items: seq<CItem>, comma: bool, close: string, rest: string)
    requires WfValue(CArray(items, comma, close))
    ensures ValueText(CArray(items, comma, close)) + rest == "[" + (ItemsText(items, comma, close) + rest)
    ensures ValueMeaning(CArray(items, comma, close)) == Arr(ItemsMeaning(items))
  {
    hide ItemsText;
    hide WfItem;
  }

  lemma ArrayIsItems(s: string)
    requires s != [] && s[0] == '['
    ensures Value(s) == ToArr(Items(s[1..]))
  {
    hide Items;
  }

  lemma {:induction false} ItemsRead(s: string) returns (items: seq<CItem>, comma: bool, close: string)
    requires Items(s).Good?
    ensures Blank(close) && (comma ==> items != []) && forall i :: 0 <= i < |items| ==> WfItem(items[i])
    ensures s == ItemsText(items, comma, close) + Items(s).rest
    ensures ItemsMeaning(items) == Items(s).value
    decreases |s|, 1
  {
    hide Value;
    hide ValueText;
    hide ValueMeaning;
    hide WfValue;
    hide SkipBlank;
    hide Blank;
    hide ItemsText;
    var s0 := SkipBlank(s);
    var before := BlankRead(s);
    if s0[0] == ']' {
      items, comma, close := [], false, before;
      EmptyItems(before);
      assert s == before + "]" + s0[1..];
    } else {
      var v := ValueRead(s0);
      var rest := Value(s0).rest;
      var s1 := SkipBlank(rest);
      var after := BlankRead(rest);
      var x := CItem(before, v, after);
      assert s == before + (ValueText(v) + (after + s1));
      assert s1 == [s1[0]] + s1[1..];
      if s1[0] == ',' {
        var items1, comma1, close1 := ItemsRead(s1[1..]);
        items, comma, close := [x] + items1, comma1 || items1 == [], close1;
        ItemsCons(x, items1, comma1, close1, Items(s1[1..]).rest);
      } else {
        items, comma, close := [x], false, [];
        LastItem(x, s1[1..]);
      }
    }
  }

  lemma ItemsCons(x: CItem, items1: seq<CItem>, comma1: bool, close: string, rest: string)
    requires WfItem(x) && (forall i :: 0 <= i < |items1| ==> WfItem(items1[i]))
    ensures var items := [x] + items1;
            && (forall i :: 0 <= i < |items| ==> WfItem(items[i]))
            && ItemsMeaning(items) == [ValueMeaning(x.v)] + ItemsMeaning(items1)
            && ItemsText(items, comma1 || items1 == [], close) + rest
               == x.before + (ValueText(x.v) + (x.after + ("," + (ItemsText(items1, comma1, close) + rest))))
  {
    hide WfItem;
    hide ValueText;
    hide ValueMeaning;
    var items := [x] + items1;
    assert items[1..] == items1;
    ItemsUnfold(items, comma1 || items1 == [], close);
    assert items1 == [] ==> ItemsText(items1, true, close) == ItemsText(items1, comma1, close);
    var tail := ItemsText(items1, comma1, close);
    AppendRight(x.before, ValueText(x.v), x.after, "," + tail, rest);
    AppendOnce(",", tail, rest);
  }

  lemma EmptyItems(close: string)
    ensures ItemsText([], false, close) == close + "]" && ItemsMeaning([]) == []
  {
  }

  lemma LastItem(x: CItem, rest: string)
    requires WfItem(x)
    ensures ItemsMeaning([x]) == [ValueMeaning(x.v)] && Blank([])
    ensures ItemsText([x], false, []) + rest == x.before + (ValueText(x.v) + (x.after + ("]" + rest)))
  {
    hide WfItem;
    hide ValueText;
    hide ValueMeaning;
    ItemsUnfold([x], false, []);
    EmptyItems([]);
    hide ItemsText;
    assert [] + "]" == "]" && "" + "]" == "]" && [x][1..] == [];
    AppendRight(x.before, ValueText(x.v), x.after, "]", rest);
  }

  // ----- lines -----

  lemma CommentEndRead(s: string) returns (e: CEnd, post: string)
    requires s != [] && s[0] == '#'
    ensures WfEnd(e) && s == EndText(e) + post && (EndsText(e) ==> post == [])
    ensures SkipBlank(post) == SkipBlank(DropComment(s)) && |post| <= |DropComment(s)|
  {
    var text := CommentRead(s[1..]);
    var t := DropComment(s);
    assert s == "#" + (text + t);
    if t == [] {
      e, post := LastComment(text), [];
    } else {
      e, post := EndComment(text), t[1..];
      assert t == "\n" + post;
    }
  }

  /** The end of a line: `post` is the text after it. */
  lemma EndRead(s: string) returns (trail: string, e: CEnd, post: string)
    requires LineEnd(s).Good?
    ensures InlineSpace(trail) && WfEnd(e) && s == trail + (EndText(e) + post)
    ensures EndsText(e) ==> post == []
    ensures SkipBlank(post) == SkipBlank(LineEnd(s).rest) && |post| <= |LineEnd(s).rest|
  {
    hide SkipInline;
    hide SkipBlank;
    hide DropComment;
    trail := InlineRead(s);
    var s0 := SkipInline(s);
    if s0 == [] {
      e, post := EndOfText, [];
    } else if s0[0] == '\n' {
      e, post := EndLF, s0[1..];
      assert s0 == "\n" + post;
    } else if s0[0] == '\r' {
      if |s0| > 1 && s0[1] == '\n' {
        e, post := EndCRLF, s0[2..];
        assert s0 == "\r\n" + post;
      } else {
        e, post := EndCR, s0[1..];
        assert s0 == "\r" + post;
      }
    } else {
      e, post := CommentEndRead(s0);
    }
  }

  lemma HeaderRead(s: string) returns (b: CBody, x: string)
    requires s != [] && s[0] == '[' && HeaderLine(s).Good?
    ensures WfBody(b) && s == BodyText(b) + x && LineEnd(x).Good?
    ensures HeaderLine(s) == Good(BodyMeaning(b), LineEnd(x).rest)
  {
    if |s| > 1 && s[1] == '[' {
      b, x := ArrayHeaderRead(s);
    } else {
      b, x := TableHeaderRead(s);
    }
  }

  lemma TableHeaderRead(s: string) returns (b: CBody, x: string)
    requires s != [] && s[0] == '[' && !(|s| > 1 && s[1] == '[') && HeaderLine(s).Good?
    ensures WfBody(b) && s == BodyText(b) + x && LineEnd(x).Good?
    ensures HeaderLine(s) == Good(BodyMeaning(b), LineEnd(x).rest)
  {
    hide LineEnd;
    hide KeyPath;
    hide StepsText;
    hide WfSteps;
    var ks := KeyPathRead(s[1..]);
    var rest := KeyPath(s[1..]).rest;
    b, x := CHeader(ks), rest[1..];
    Bracket("[", s, StepsText(ks), "]", rest);
  }

  lemma ArrayHeaderRead(s: string) returns (b: CBody, x: string)
    requires |s| > 1 && s[0] == '[' && s[1] == '[' && HeaderLine(s).Good?
    ensures WfBody(b) && s == BodyText(b) + x && LineEnd(x).Good?
    ensures HeaderLine(s) == Good(BodyMeaning(b), LineEnd(x).rest)
  {
    hide LineEnd;
    hide KeyPath;
    hide StepsText;
    hide WfSteps;
    var ks := KeyPathRead(s[2..]);
    var rest := KeyPath(s[2..]).rest;
    b, x := CArrayHeader(ks), rest[2..];
    Bracket("[[", s, StepsText(ks), "]]", rest);
  }

  lemma Bracket(open: string, s: string, path: string, close: string, rest: string)
    requires IsPrefix(open, s) && s[|open|..] == path + rest && IsPrefix(close, rest)
    ensures s == open + (path + close) + rest[|close|..]
  {
    assert rest == close + rest[|close|..];
    assert s == open + s[|open|..];
  }

  lemma KeyLineRead(s: string) returns (b: CBody, x: string)
    requires SkipInline(s) == s && KeyLine(s).Good?
    ensures WfBody(b) && s == BodyText(b) + x && LineEnd(x).Good?
    ensures KeyLine(s) == Good(BodyMeaning(b), LineEnd(x).rest)
  {
    hide LineEnd;
    hide KeyPath;
    hide Value;
    hide WfSteps;
    hide WfValue;
    hide StepsText;
    hide StepsMeaning;
    hide ValueText;
    hide ValueMeaning;
    hide InlineSpace;
    var ks := KeyPathRead(s);
    var s0 := SkipInline(KeyPath(s).rest);
    PathRest(s);
    var gap := InlineRead(s0[1..]);
    var w := SkipInline(s0[1..]);
    var v := ValueRead(w);
    b, x := CKeyVal(ks, gap, v), Value(w).rest;
    assert s0 == "=" + (gap + (ValueText(v) + x));
    AppendRight(StepsText(ks), "=", gap, ValueText(v), x);
  }

  /** A key path is followed by no space. */
  lemma {:induction false} PathRest(s: string)
    requires KeyPath(s).Good?
    ensures SkipInline(KeyPath(s).rest) == KeyPath(s).rest
    decreases |s|
  {
    var s0 := SkipInline(s);
    var s1 := SkipInline(KeyPart(s0).rest);
    if s1 != [] && s1[0] == '.' {
      PathRest(s1[1..]);
    } else {
      InlineTwice(KeyPart(s0).rest);
    }
  }

  lemma {:induction false} InlineTwice(s: string)
    ensures SkipInline(SkipInline(s)) == SkipInline(s)
  {
    if s == [] || !IsInline(s[0]) {
    } else {
      InlineTwice(s[1..]);
    }
  }

  lemma LineRead(s: string) returns (b: CBody, x: string)
    requires s != [] && SkipBlank(s) == s && Line(s).Good?
    ensures WfBody(b) && s == BodyText(b) + x && LineEnd(x).Good?
    ensures Line(s) == Good(BodyMeaning(b), LineEnd(x).rest)
  {
    BlankHead(s);
    if s[0] == '[' {
      b, x := HeaderRead(s);
    } else {
      b, x := KeyLineRead(s);
    }
  }

  // ----- documents -----

  /** Every text that scans is the text of a well-formed document that means what was scanned. */
  lemma {:induction false} ScanRead(s: string) returns (ls: seq<CLine>, tail: string)
    requires Scan(s).Good?
    ensures WfDoc(ls, tail) && DocText(ls, tail) == s && DocMeaning(ls) == Scan(s).value
    ensures SkipBlank(s) == [] ==> ls == []
    decreases |s|
  {
    hide Line;
    hide LineEnd;
    hide BodyText;
    hide BodyMeaning;
    hide WfBody;
    hide EndText;
    hide SkipBlank;
    hide Blank;
    hide InlineSpace;
    var s0 := SkipBlank(s);
    if s0 == [] {
      ls, tail := [], s;
    } else {
      var lead := BlankRead(s);
      BlankHead(s);
      var b, x := LineRead(s0);
      var trail, e, post := EndRead(x);
      assert Scan(post) == Scan(Line(s0).rest);
      var ls1, tail1 := ScanRead(post);
      ls, tail := [CLine(lead, b, trail, e)] + ls1, tail1;
      NothingBlank();
      ConsLine(CLine(lead, b, trail, e), ls1, tail);
    }
  }

  lemma NothingBlank()
    ensures SkipBlank([]) == []
  {
  }

  lemma ConsLine(l: CLine, ls: seq<CLine>, tail: string)
    requires WfLine(l) && WfDoc(ls, tail) && (EndsText(l.end) ==> ls == [] && tail == [])
    ensures WfDoc([l] + ls, tail) && DocMeaning([l] + ls) == [BodyMeaning(l.body)] + DocMeaning(ls)
    ensures DocText([l] + ls, tail)
         == l.lead + (BodyText(l.body) + (l.trail + (EndText(l.end) + DocText(ls, tail))))
  {
    hide WfBody;
    hide BodyText;
    hide BodyMeaning;
    hide EndText;
    hide SkipBlank;
    hide Blank;
    assert ([l] + ls)[1..] == ls;
  }

  /** ... and every well-formed document scans as what it means. */
  lemma {:induction false} ScanText(ls: seq<CLine>, tail: string)
    requires WfDoc(ls, tail)
    ensures Scan(DocText(ls, tail)) == Good(DocMeaning(ls), [])
    decreases |ls|
  {
    hide Line;
    hide SkipBlank;
    if ls == [] {
    } else {
      var post := DocText(ls[1..], tail);
      LineParses(ls[0], post);
      ScanText(ls[1..], tail);
      var s0 := SkipBlank(DocText(ls, tail));
      assert Scan(Line(s0).rest) == Scan(post);
    }
  }

  /** `src` is a document whose lines mean `ss`. */
  ghost predicate Writes(src: string, ss: seq<Stmt>) {
    exists ls, tail :: WfDoc(ls, tail) && DocText(ls, tail) == src && DocMeaning(ls) == ss
  }

  /** The scanner's language is the grammar, and a text has one meaning. */
  lemma Language(src: string, ss: seq<Stmt>)
    ensures Writes(src, ss) <==> Scan(src).Good? && Scan(src).value == ss
  {
    if Writes(src, ss) {
      var ls, tail :| WfDoc(ls, tail) && DocText(ls, tail) == src && DocMeaning(ls) == ss;
      ScanText(ls, tail);
    }
    if Scan(src).Good? {
      var ls, tail := ScanRead(src);
    }
  }

  /** Which texts are accepted, and as which tree, without the parser: the documents of the
      grammar whose statements run from the empty tree to this one. */
  lemma AcceptedLanguage(src: string, t: Tree)
    ensures ParseDoc(src) == Ok(t) <==>
            exists ss :: Writes(src, ss) && AllProper(ss) && Exec(EMPTY, ss).Ok? && Exec(EMPTY, ss).value.tree == t
  {
    RunIsExec(src, EMPTY);
    if Scan(src).Good? {
      Language(src, Scan(src).value);
    }
    forall ss | Writes(src, ss) ensures Scan(src).Good? && Scan(src).value == ss {
      Language(src, ss);
    }
  }
}
