/** Whole documents: reading the text of a document runs the statements it was written to
    mean, whatever the layout; and every config-shaped tree survives printing and parsing. */
module TomlDocument {
  import opened Prelude
  import opened Numerals
  import opened TomlTree
  import opened TomlSyntax
  import opened TomlRuns
  import opened TomlText
  import opened TomlListing
  import TomlEffects

  /** toml.Parse: the tree of a document, or the first error. */
  function ParseDoc(src: string): Result<Tree, Kind> {
    match Run(src, EMPTY)
    case Good(d, _) => Ok(d.tree)
    case Bad(k, _) => Err(k)
  }

  // ----- accepted texts and their statements -----

  /** The statements of a text, without their effects. */
  function Scan(s: string): (r: Parsed<seq<Stmt>>)
    ensures r.Good? ==> AllProper(r.value)
    decreases |s|
  {
    var s0 := SkipBlank(s);
    if s0 == [] then Good([], s0)
    else
      match Line(s0)
      case Bad(k, rest) => Bad(k, rest)
      case Good(st, rest) =>
        match Scan(rest)
        case Bad(k, e) => Bad(k, e)
        case Good(ss, e) => Good([st] + ss, e)
  }

  /** The one-pass parser accepts exactly the texts whose statements scan and execute, and
      builds what they execute to. */
  lemma {:induction false} RunIsExec(s: string, d: Doc)
    requires Ready(d)
    ensures Run(s, d).Good? <==> Scan(s).Good? && Exec(d, Scan(s).value).Ok?
    ensures Run(s, d).Good? ==> Run(s, d).value == Exec(d, Scan(s).value).value
    decreases |s|
  {
    hide Line;
    var s0 := SkipBlank(s);
    if s0 == [] || Line(s0).Bad? {
    } else {
      var Good(st, rest) := Line(s0);
      if Apply(d, st).Ok? {
        TomlEffects.ApplyReady(d, st);
        RunIsExec(rest, Apply(d, st).value);
      }
      if Scan(rest).Good? {
        assert Scan(s).value[0] == st && Scan(s).value[1..] == Scan(rest).value;
      }
    }
  }

  /** Parsing is conservative: the scalars of the tree of an accepted text are exactly those
      its key/value statements provide, each at one position and from one statement; and
      every array of the tree is uniform. */
  lemma AcceptedTree(src: string, r: Path, x: Scalar)
    requires ParseDoc(src).Ok?
    ensures Scan(src).Good? && Exec(EMPTY, Scan(src).value).Ok?
    ensures var t := ParseDoc(src).value;
            var ps := Placed(EMPTY, Scan(src).value);
            && t.Map? && TomlEffects.Uniform(t)
            && (ShapeAt(t, r) == Scal(x) <==> exists i :: 0 <= i < |ps| && Provides(ps[i], r, x))
            && forall i, j :: 0 <= i < |ps| && 0 <= j < |ps| && Provides(ps[i], r, x) && Provides(ps[j], r, x) ==> i == j
  {
    RunIsExec(src, EMPTY);
    var ss := Scan(src).value;
    RunScalars(EMPTY, ss, r, x);
    RunDisjoint(EMPTY, ss, r, x, x);
    RunUniform(EMPTY, ss);
    var ps := Placed(EMPTY, ss);
    assert ShapeAt(EMPTY.tree, r) != Scal(x);
    if pl :| pl in ps && Provides(pl, r, x) {
      var i :| 0 <= i < |ps| && ps[i] == pl;
    }
  }

  // ----- documents as written -----

  datatype CBody =
    | CHeader(ks: seq<CStep>)
    | CArrayHeader(ks: seq<CStep>)
    | CKeyVal(ks: seq<CStep>, gap: string, v: CValue)

  /** How the line of a statement ends; a comment or the statement itself may end the text. */
  datatype CEnd = EndLF | EndCRLF | EndCR | EndComment(text: string) | LastComment(text: string) | EndOfText

  predicate WfEnd(e: CEnd) {
    e.EndComment? || e.LastComment? ==> '\n' !in e.text
  }

  predicate EndsText(e: CEnd) {
    e.LastComment? || e.EndOfText?
  }

  /** A statement with the blanks before it, the spaces after it and the end of its line. */
  datatype CLine = CLine(lead: string, body: CBody, trail: string, end: CEnd)

  predicate WfBody(b: CBody) {
    WfSteps(b.ks) && (b.CKeyVal? ==> b.ks[0].before == [] && InlineSpace(b.gap) && WfValue(b.v))
  }

  predicate WfLine(l: CLine) {
    Blank(l.lead) && WfBody(l.body) && InlineSpace(l.trail) && WfEnd(l.end)
  }

  /** Only the last line may end with the text; after the lines there may be blanks and one
      comment without a newline. */
  predicate WfDoc(ls: seq<CLine>, tail: string) {
    && (forall i :: 0 <= i < |ls| ==> WfLine(ls[i]) && (EndsText(ls[i].end) ==> i == |ls| - 1 && tail == []))
    && SkipBlank(tail) == []
  }

  function BodyText(b: CBody): string
    requires WfBody(b)
  {
    match b
    case CHeader(ks) => "[" + (StepsText(ks) + "]")
    case CArrayHeader(ks) => "[[" + (StepsText(ks) + "]]")
    case CKeyVal(ks, gap, v) => StepsText(ks) + ("=" + (gap + ValueText(v)))
  }

  function BodyMeaning(b: CBody): (s: Stmt)
    requires WfBody(b)
    ensures Proper(s)
  {
    match b
    case CHeader(ks) => Header(StepsMeaning(ks))
    case CArrayHeader(ks) => ArrayHeader(StepsMeaning(ks))
    case CKeyVal(ks, _, v) =>
      ValueParses(v, []);
      KeyVal(StepsMeaning(ks), ValueMeaning(v))
  }

  function EndText(e: CEnd): string {
    match e
    case EndLF => "\n"
    case EndCRLF => "\r\n"
    case EndCR => "\r"
    case EndComment(text) => "#" + (text + "\n")
    case LastComment(text) => "#" + text
    case EndOfText => ""
  }

  function DocText(ls: seq<CLine>, tail: string): string
    requires forall i :: 0 <= i < |ls| ==> WfLine(ls[i])
  {
    if ls == [] then tail
    else
      assert WfLine(ls[0]);
      ls[0].lead + (BodyText(ls[0].body) + (ls[0].trail + (EndText(ls[0].end) + DocText(ls[1..], tail))))
  }

  function DocMeaning(ls: seq<CLine>): (ss: seq<Stmt>)
    requires forall i :: 0 <= i < |ls| ==> WfLine(ls[i])
    ensures AllProper(ss)
  {
    if ls == [] then []
    else
      assert WfLine(ls[0]);
      [BodyMeaning(ls[0].body)] + DocMeaning(ls[1..])
  }

  lemma {:induction false} CommentText(text: string, post: string)
    requires '\n' !in text
    ensures DropComment(text + ("\n" + post)) == "\n" + post
  {
    if text == [] {
      assert text + ("\n" + post) == "\n" + post;
    } else {
      assert (text + ("\n" + post))[1..] == text[1..] + ("\n" + post);
      CommentText(text[1..], post);
    }
  }

  lemma BareEndParses(e: CEnd, post: string)
    requires WfEnd(e) && (EndsText(e) ==> post == [])
    ensures Stops(EndText(e) + post)
    ensures var r := LineEnd(EndText(e) + post);
            r.Good? && SkipBlank(r.rest) == SkipBlank(post)
  {
    var x := EndText(e) + post;
    match e {
      case EndLF => assert x[0] == '\n' && x[1..] == post;
      case EndCRLF => assert x[0] == '\r' && x[1] == '\n' && x[2..] == post;
      case EndCR =>
        assert x[0] == '\r' && x[1..] == post;
        if post != [] && post[0] == '\n' { assert x[1] == '\n' && x[2..] == post[1..]; }
      case EndComment(text) => CommentEndParses(text, post);
      case LastComment(text) => LastCommentParses(text);
      case EndOfText => assert x == [];
    }
  }

  lemma CommentEndParses(text: string, post: string)
    requires '\n' !in text
    ensures var x := "#" + (text + "\n") + post;
            && Stops(x) && LineEnd(x) == Good((), "\n" + post) && SkipBlank("\n" + post) == SkipBlank(post)
  {
    var x := "#" + (text + "\n") + post;
    assert x[0] == '#' && x[1..] == text + ("\n" + post);
    CommentText(text, post);
    assert ("\n" + post)[1..] == post;
  }

  lemma {:induction false} NoLineEnd(text: string)
    requires '\n' !in text
    ensures DropComment(text) == []
  {
    if text == [] {
    } else {
      NoLineEnd(text[1..]);
    }
  }

  lemma LastCommentParses(text: string)
    requires '\n' !in text
    ensures var x := "#" + text + []; Stops(x) && LineEnd(x) == Good((), [])
  {
    var x := "#" + text + [];
    assert x[0] == '#' && x[1..] == text;
    NoLineEnd(text);
  }

  /** The end of a line, whatever its form, leaves the same text but for blanks. */
  lemma LineEndParses(trail: string, e: CEnd, post: string)
    requires InlineSpace(trail) && WfEnd(e) && (EndsText(e) ==> post == [])
    ensures Stops(trail + (EndText(e) + post))
    ensures var r := LineEnd(trail + (EndText(e) + post));
            r.Good? && SkipBlank(r.rest) == SkipBlank(post)
  {
    hide EndText;
    hide SkipBlank;
    hide SkipInline;
    var x := EndText(e) + post;
    BareEndParses(e, post);
    InlineIsBlank(trail);
    BlankStops(trail, x);
    SkipInlinePast(trail, x);
  }

  lemma StepsHead(ks: seq<CStep>, x: string)
    requires WfSteps(ks)
    ensures var s := StepsText(ks) + x;
            s != [] && s[0] != '[' && (ks[0].before == [] ==> !IsSpace(s[0]) && s[0] != '#')
  {
    var s := StepsText(ks) + x;
    PartHead(ks[0].part);
    if ks[0].before == [] {
      assert s[0] == PartText(ks[0].part)[0];
    } else {
      assert s[0] == ks[0].before[0];
    }
  }

  lemma HeaderParses(ks: seq<CStep>, x: string)
    requires WfSteps(ks) && LineEnd(x).Good?
    ensures Line("[" + (StepsText(ks) + ("]" + x))) == Good(Header(StepsMeaning(ks)), LineEnd(x).rest)
  {
    var u := StepsText(ks) + ("]" + x);
    var s := "[" + u;
    assert s[1..] == u;
    StepsHead(ks, "]" + x);
    KeyPathText(ks, "]" + x);
    assert ("]" + x)[1..] == x;
  }

  lemma ArrayHeaderParses(ks: seq<CStep>, x: string)
    requires WfSteps(ks) && LineEnd(x).Good?
    ensures Line("[[" + (StepsText(ks) + ("]]" + x))) == Good(ArrayHeader(StepsMeaning(ks)), LineEnd(x).rest)
  {
    var u := StepsText(ks) + ("]]" + x);
    var s := "[[" + u;
    assert s[2..] == u && s[1] == '[';
    KeyPathText(ks, "]]" + x);
    assert ("]]" + x)[2..] == x;
  }

  lemma KeyValParses(ks: seq<CStep>, gap: string, v: CValue, x: string)
    requires WfBody(CKeyVal(ks, gap, v)) && Stops(x) && LineEnd(x).Good?
    ensures Line(StepsText(ks) + ("=" + (gap + (ValueText(v) + x))))
         == Good(KeyVal(StepsMeaning(ks), ValueMeaning(v)), LineEnd(x).rest)
  {
    hide LineEnd;
    hide KeyPath;
    hide Value;
    var w := gap + (ValueText(v) + x);
    StepsHead(ks, "=" + w);
    KeyPathText(ks, "=" + w);
    assert SkipInline("=" + w) == "=" + w && ("=" + w)[1..] == w;
    SkipInlinePast(gap, ValueText(v) + x);
    ValueHead(v, x);
    ValueParses(v, x);
  }

  lemma BodyParses(b: CBody, x: string)
    requires WfBody(b) && Stops(x) && LineEnd(x).Good?
    ensures var u := BodyText(b) + x;
            u != [] && SkipBlank(u) == u && Line(u) == Good(BodyMeaning(b), LineEnd(x).rest)
  {
    hide Line;
    hide LineEnd;
    hide SkipBlank;
    hide BodyMeaning;
    hide BodyText;
    match b {
      case CHeader(ks) => TableBodyParses(ks, x);
      case CArrayHeader(ks) => ArrayBodyParses(ks, x);
      case CKeyVal(ks, gap, v) => KeyBodyParses(ks, gap, v, x);
    }
  }

  lemma TableBodyParses(ks: seq<CStep>, x: string)
    requires WfSteps(ks) && LineEnd(x).Good?
    ensures var u := BodyText(CHeader(ks)) + x;
            u != [] && SkipBlank(u) == u && Line(u) == Good(BodyMeaning(CHeader(ks)), LineEnd(x).rest)
  {
    hide Line;
    hide LineEnd;
    hide StepsText;
    hide StepsMeaning;
    assert ks != [];
    hide WfSteps;
    assert BodyText(CHeader(ks)) + x == "[" + (StepsText(ks) + ("]" + x));
    HeaderParses(ks, x);
  }

  lemma ArrayBodyParses(ks: seq<CStep>, x: string)
    requires WfSteps(ks) && LineEnd(x).Good?
    ensures var u := BodyText(CArrayHeader(ks)) + x;
            u != [] && SkipBlank(u) == u && Line(u) == Good(BodyMeaning(CArrayHeader(ks)), LineEnd(x).rest)
  {
    hide Line;
    hide LineEnd;
    hide StepsText;
    hide StepsMeaning;
    assert ks != [];
    hide WfSteps;
    assert BodyText(CArrayHeader(ks)) + x == "[[" + (StepsText(ks) + ("]]" + x));
    ArrayHeaderParses(ks, x);
  }

  lemma KeyBodyParses(ks: seq<CStep>, gap: string, v: CValue, x: string)
    requires WfBody(CKeyVal(ks, gap, v)) && Stops(x) && LineEnd(x).Good?
    ensures var u := BodyText(CKeyVal(ks, gap, v)) + x;
            u != [] && SkipBlank(u) == u && Line(u) == Good(BodyMeaning(CKeyVal(ks, gap, v)), LineEnd(x).rest)
  {
    hide Line;
    hide LineEnd;
    hide StepsText;
    hide StepsMeaning;
    hide ValueText;
    hide ValueMeaning;
    AppendRight(StepsText(ks), "=", gap, ValueText(v), x);
    StepsHead(ks, "=" + (gap + (ValueText(v) + x)));
    KeyValParses(ks, gap, v, x);
  }

  /** One line of a document: the statement is read and what follows is left, up to blanks. */
  lemma LineParses(l: CLine, post: string)
    requires WfLine(l) && (EndsText(l.end) ==> post == [])
    ensures var s := l.lead + (BodyText(l.body) + (l.trail + (EndText(l.end) + post)));
            var s0 := SkipBlank(s);
            && s0 != [] && Line(s0).Good? && Line(s0).value == BodyMeaning(l.body)
            && SkipBlank(Line(s0).rest) == SkipBlank(post)
  {
    hide Line;
    hide LineEnd;
    hide SkipBlank;
    hide BodyText;
    var x := l.trail + (EndText(l.end) + post);
    LineEndParses(l.trail, l.end, post);
    SkipBlankPast(l.lead, BodyText(l.body) + x);
    BodyParses(l.body, x);
  }

  /** Layout does not matter: reading the text of a document gives exactly what running its
      statements gives, success or error. */
  lemma {:induction false} TextParses(ls: seq<CLine>, tail: string, d: Doc)
    requires WfDoc(ls, tail) && Ready(d)
    ensures match Exec(d, DocMeaning(ls))
            case Ok(d1) => Run(DocText(ls, tail), d) == Good(d1, [])
            case Err(k) => Run(DocText(ls, tail), d).Bad? && Run(DocText(ls, tail), d).kind == k
    decreases |ls|
  {
    hide Line;
    hide Apply;
    hide SkipBlank;
    if ls == [] {
    } else {
      var post := DocText(ls[1..], tail);
      LineParses(ls[0], post);
      var s := DocText(ls, tail);
      var st := BodyMeaning(ls[0].body);
      var rest := Line(SkipBlank(s)).rest;
      assert DocMeaning(ls)[0] == st && DocMeaning(ls)[1..] == DocMeaning(ls[1..]);
      if Apply(d, st).Ok? {
        TomlEffects.ApplyReady(d, st);
        var d1 := Apply(d, st).value;
        TextParses(ls[1..], tail, d1);
        assert Run(rest, d1) == Run(post, d1);
      }
    }
  }

  // ----- printing -----

  /** The scalars a document can spell: 64-bit integers and float literals in clean form. */
  predicate Writable(t: Tree) {
    match t
    case Leaf(Int(n)) => MIN_INT64 <= n <= MAX_INT64
    case Leaf(Float(lit)) => WfNumber(lit) && NumberValue(lit) == Some(Float(lit))
    case Leaf(_) => true
    case Arr(xs) => forall i :: 0 <= i < |xs| ==> Writable(xs[i])
    case Map(m) => forall k :: k in m ==> Writable(m[k])
  }

  function PrintValue(t: Tree): CValue
    requires NoTables(t)
  {
    match t
    case Leaf(Str(s)) => CBasic(Quote(s))
    case Leaf(Int(n)) => CNumber(Decimal(n))
    case Leaf(Float(lit)) => CNumber(lit)
    case Leaf(Bool(b)) => CBool(b)
    case Arr(xs) =>
      CArray(seq(|xs|, i requires 0 <= i < |xs| => CItem([], PrintValue(xs[i]), [])), false, [])
  }

  lemma {:induction false} NoDashes(s: string)
    requires AllDigits(s)
    ensures Count(s, '-') == 0
  {
    if s == [] {
    } else {
      NoDashes(s[1..]);
    }
  }

  lemma DecimalToken(n: int)
    requires MIN_INT64 <= n <= MAX_INT64
    ensures WfNumber(Decimal(n)) && NumberValue(Decimal(n)) == Some(Int(n))
  {
    hide IsFloat;
    hide DecimalNat;
    var s := Decimal(n);
    var ds := DecimalNat(if n < 0 then -n else n);
    assert s == (if n < 0 then "-" + ds else ds);
    assert forall i :: 0 <= i < |s| ==> s[i] == '-' || IsDigit(s[i]);
    RemoveAbsent(s, '_');
    ParseDecimal(n);
    NoDashes(ds);
    if n < 0 { assert s[1..] == ds; }
  }

  lemma {:induction false} PrintValueMeaning(t: Tree)
    requires NoTables(t) && Writable(t)
    ensures WfValue(PrintValue(t)) && ValueMeaning(PrintValue(t)) == t
  {
    hide WfNumber;
    hide NumberValue;
    match t {
      case Leaf(Str(s)) => QuoteMeaning(s);
      case Leaf(Int(n)) => DecimalToken(n);
      case Leaf(Float(lit)) =>
      case Leaf(Bool(b)) =>
      case Arr(xs) =>
        var v := PrintValue(t);
        forall i | 0 <= i < |xs| ensures WfItem(v.items[i]) && ValueMeaning(v.items[i].v) == xs[i] {
          PrintValueMeaning(xs[i]);
        }
        assert ValueMeaning(v).elems == xs;
    }
  }

  function PrintPath(path: seq<string>): (ks: seq<CStep>)
    requires path != []
    ensures WfSteps(ks) && ks[0].before == []
  {
    seq(|path|, i requires 0 <= i < |path| => CStep([], BasicKey(Quote(path[i])), []))
  }

  lemma PrintPathMeaning(path: seq<string>)
    requires path != []
    ensures StepsMeaning(PrintPath(path)) == path
  {
    forall i | 0 <= i < |path| ensures StepsMeaning(PrintPath(path))[i] == path[i] {
      QuoteMeaning(path[i]);
    }
  }

  function PrintStmt(s: Stmt): CLine
    requires Proper(s)
  {
    var ks := PrintPath(s.path);
    var body := match s
                case Header(_) => CHeader(ks)
                case ArrayHeader(_) => CArrayHeader(ks)
                case KeyVal(_, v) => CKeyVal(ks, [], PrintValue(v));
    CLine([], body, [], EndLF)
  }

  predicate WritableStmt(s: Stmt) {
    s.KeyVal? ==> Writable(s.v)
  }

  lemma PrintStmtMeaning(s: Stmt)
    requires Proper(s) && WritableStmt(s)
    ensures WfLine(PrintStmt(s)) && BodyMeaning(PrintStmt(s).body) == s
  {
    PrintPathMeaning(s.path);
    if s.KeyVal? { PrintValueMeaning(s.v); }
  }

  function PrintStmts(ss: seq<Stmt>): (ls: seq<CLine>)
    requires AllProper(ss)
    ensures |ls| == |ss|
  {
    seq(|ss|, i requires 0 <= i < |ss| => PrintStmt(ss[i]))
  }

  lemma {:induction false} PrintStmtsMeaning(ss: seq<Stmt>)
    requires AllProper(ss) && forall i :: 0 <= i < |ss| ==> WritableStmt(ss[i])
    ensures forall i :: 0 <= i < |ss| ==> WfLine(PrintStmts(ss)[i])
    ensures DocMeaning(PrintStmts(ss)) == ss
  {
    hide WfLine;
    hide WritableStmt;
    hide PrintStmt;
    hide BodyMeaning;
    forall i | 0 <= i < |ss| ensures WfLine(PrintStmts(ss)[i]) {
      PrintStmtMeaning(ss[i]);
    }
    if ss == [] {
    } else {
      PrintStmtsMeaning(ss[1..]);
      assert PrintStmts(ss)[1..] == PrintStmts(ss[1..]);
      PrintStmtMeaning(ss[0]);
      assert ss == [ss[0]] + ss[1..];
    }
  }

  lemma PrintStmtsWf(ss: seq<Stmt>)
    requires AllProper(ss) && forall i :: 0 <= i < |ss| ==> WritableStmt(ss[i])
    ensures WfDoc(PrintStmts(ss), [])
  {
    hide WfLine;
    PrintStmtsMeaning(ss);
  }

  /** The text of a statement list. */
  function StmtsText(ss: seq<Stmt>): string
    requires AllProper(ss) && forall i :: 0 <= i < |ss| ==> WritableStmt(ss[i])
  {
    PrintStmtsMeaning(ss);
    DocText(PrintStmts(ss), [])
  }

  /** Any statement list survives printing and scanning; the parser runs it. */
  lemma StmtsRoundTrip(ss: seq<Stmt>)
    requires AllProper(ss) && forall i :: 0 <= i < |ss| ==> WritableStmt(ss[i])
    ensures ParseDoc(StmtsText(ss)) == match Exec(EMPTY, ss) case Ok(d) => Ok(d.tree) case Err(k) => Err(k)
  {
    hide Exec;
    hide Run;
    hide WfDoc;
    hide PrintStmts;
    PrintStmtsMeaning(ss);
    PrintStmtsWf(ss);
    TextParses(PrintStmts(ss), [], EMPTY);
  }

  // ----- the round trip of trees -----

  lemma {:induction false} WritableGet(t: Tree, p: Path)
    requires Writable(t) && Get(t, p).Some?
    ensures Writable(Get(t, p).value)
    decreases t
  {
    if p == [] {
    } else {
      match p[0] {
        case Key(k) => WritableGet(t.entries[k], p[1..]);
        case Idx(i) => WritableGet(t.elems[i], p[1..]);
      }
    }
  }

  lemma BodyWritable(b: Tree)
    requires IsBody(b) && Writable(b)
    ensures forall s :: s in BodyStmts(b) ==> WritableStmt(s)
  {
    FlatProper(b);
    var kvs := Flat(b);
    forall s | s in BodyStmts(b) ensures WritableStmt(s) {
      var i :| 0 <= i < |kvs| && BodyStmts(b)[i] == s;
      assert kvs[i] in kvs;
      WritableGet(b, Keys(kvs[i].path));
    }
  }

  lemma {:induction false} ArrayWritable(k: string, xs: seq<Tree>)
    requires AllBodies(xs) && forall x :: x in xs ==> Writable(x)
    ensures forall s :: s in ArrayStmts(k, xs) ==> WritableStmt(s)
  {
    if xs == [] {
    } else {
      var init, last := xs[..|xs| - 1], xs[|xs| - 1];
      assert last in xs && forall x :: x in init ==> x in xs;
      ArrayWritable(k, init);
      BodyWritable(last);
    }
  }

  lemma {:induction false} SectionsWritable(t: Tree, ks: seq<string>)
    requires ConfigShaped(t) && SectionsOf(t, ks) && Writable(t)
    ensures forall s :: s in SectionsStmts(t, ks) ==> WritableStmt(s)
    decreases |ks|
  {
    if ks == [] {
    } else {
      var v := t.entries[ks[0]];
      if v.Map? {
        BodyWritable(v);
      } else {
        ArrayWritable(ks[0], v.elems);
      }
      SectionsWritable(t, ks[1..]);
    }
  }

  lemma ListingWritable(t: Tree)
    requires ConfigShaped(t) && Writable(t)
    ensures forall i :: 0 <= i < |Listing(t)| ==> WritableStmt(Listing(t)[i])
  {
    RootIsBody(t);
    BodyWritable(RootBody(t));
    SectionsWritable(t, SectionKeys(t));
    forall i | 0 <= i < |Listing(t)| ensures WritableStmt(Listing(t)[i]) {
      assert Listing(t)[i] in BodyStmts(RootBody(t)) || Listing(t)[i] in SectionsStmts(t, SectionKeys(t));
    }
  }

  /** The canonical text of a tree. */
  ghost function Print(t: Tree): string
    requires ConfigShaped(t) && Writable(t)
  {
    ListingWritable(t);
    StmtsText(Listing(t))
  }

  /** Parse inverts Print on every config-shaped tree: root keys, tables, arrays of tables
      with dotted sub-tables, nested arrays, any strings and any 64-bit integers. */
  lemma RoundTrip(t: Tree)
    requires ConfigShaped(t) && Writable(t)
    ensures ParseDoc(Print(t)) == Ok(t)
  {
    hide ParseDoc;
    hide Exec;
    ListingWritable(t);
    StmtsRoundTrip(Listing(t));
    ListingExec(t);
  }
}
