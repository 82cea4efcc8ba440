/** What each scanning method of the parser reads, as functions of the text that is left.
    A scan returns its value and the rest of the text, or the error and the rest of the
    text at the point where it is raised. */
module TomlSyntax {
  import opened Prelude
  import opened Numerals
  import Utf8
  import opened TomlTree
  import Effects = TomlEffects

  datatype Parsed<+T> = Good(value: T, rest: string) | Bad(kind: Kind, rest: string)

  // ----- blanks and line ends -----

  predicate IsInline(c: char) {
    c == ' ' || c == '\t'
  }

  predicate IsSpace(c: char) {
    IsInline(c) || c == '\r' || c == '\n'
  }

  function SkipInline(s: string): (r: string)
    ensures |r| <= |s|
  {
    if s != [] && IsInline(s[0]) then SkipInline(s[1..]) else s
  }

  /** The text from the next newline on. */
  function DropComment(s: string): (r: string)
    ensures |r| <= |s|
  {
    if s == [] || s[0] == '\n' then s else DropComment(s[1..])
  }

  /** Whitespace, newlines and comments. */
  function SkipBlank(s: string): (r: string)
    ensures |r| <= |s|
    decreases |s|
  {
    if s == [] then s
    else if IsSpace(s[0]) then SkipBlank(s[1..])
    else if s[0] == '#' then SkipBlank(DropComment(s[1..]))
    else s
  }

  function LineEnd(s: string): (r: Parsed<()>)
    ensures |r.rest| <= |s|
  {
    var s0 := SkipInline(s);
    if s0 == [] then Good((), s0)
    else if s0[0] == '\n' then Good((), s0[1..])
    else if s0[0] == '\r' then Good((), if |s0| > 1 && s0[1] == '\n' then s0[2..] else s0[1..])
    else if s0[0] == '#' then Good((), DropComment(s0))
    else Bad(TrailingText, s0)
  }

  // ----- strings -----

  /** The single-byte escapes. */
  function SimpleEscape(c: char): Option<char> {
    if c == 'n' then Some('\n')
    else if c == 't' then Some('\t')
    else if c == 'r' then Some('\r')
    else if c == 'b' then Some(Utf8.Byte(8))
    else if c == 'f' then Some(Utf8.Byte(12))
    else if c == '"' then Some('"')
    else if c == '\\' then Some('\\')
    else None
  }

  /** An escape sequence after its backslash. */
  function Escape(s: string): (r: Parsed<string>)
    ensures |r.rest| <= |s|
    ensures r.Good? ==> |r.rest| < |s|
  {
    if s == [] then Bad(UnterminatedEscape, s)
    else if SimpleEscape(s[0]).Some? then Good([SimpleEscape(s[0]).value], s[1..])
    else if s[0] == 'u' || s[0] == 'U' then
      var n := if s[0] == 'U' then 8 else 4;
      if |s| - 1 < n then Bad(TruncatedEscape, s[1..])
      else
        match ParseHex32(s[1..n + 1])
        case None => Bad(InvalidEscape, s[1..])
        case Some(v) =>
          if Utf8.IsScalarValue(Utf8.ToRune(v)) then Good(Utf8.Encode(Utf8.ToRune(v)), s[n + 1..])
          else Bad(NotAScalarValue, s[1..])
    else Bad(UnknownEscape, s[1..])
  }

  function Prepend(b: string, r: Parsed<string>): Parsed<string> {
    match r
    case Good(v, rest) => Good(b + v, rest)
    case Bad(k, rest) => Bad(k, rest)
  }

  /** A basic string after its opening quote. */
  function BasicBody(s: string): (r: Parsed<string>)
    ensures |r.rest| <= |s|
    ensures r.Good? ==> |r.rest| < |s|
    decreases |s|
  {
    if s == [] then Bad(UnterminatedString, s)
    else if s[0] == '"' then Good([], s[1..])
    else if s[0] == '\n' then Bad(NewlineInString, s)
    else if s[0] == '\\' then
      match Escape(s[1..])
      case Bad(k, rest) => Bad(k, rest)
      case Good(v, rest) => Prepend(v, BasicBody(rest))
    else Prepend([s[0]], BasicBody(s[1..]))
  }

  /** A literal string after its opening quote. */
  function LiteralBody(s: string): (r: Parsed<string>)
    ensures |r.rest| <= |s|
    ensures r.Good? ==> |r.rest| < |s|
  {
    if s == [] then Bad(UnterminatedString, s)
    else if s[0] == '\'' then Good([], s[1..])
    else if s[0] == '\n' then Bad(NewlineInString, s)
    else Prepend([s[0]], LiteralBody(s[1..]))
  }

  // ----- keys -----

  predicate IsBareKeyChar(c: char) {
    c == '-' || c == '_' || 'a' <= c <= 'z' || 'A' <= c <= 'Z' || '0' <= c <= '9'
  }

  /** The length of the run of bare key characters at the head of `s`. */
  function BareRun(s: string): (n: nat)
    ensures n <= |s|
  {
    if s != [] && IsBareKeyChar(s[0]) then 1 + BareRun(s[1..]) else 0
  }

  function KeyPart(s: string): (r: Parsed<string>)
    requires s != []
    ensures |r.rest| <= |s|
    ensures r.Good? ==> |r.rest| < |s|
  {
    if s[0] == '"' then BasicBody(s[1..])
    else if s[0] == '\'' then LiteralBody(s[1..])
    else if IsBareKeyChar(s[0]) then Good(s[..BareRun(s)], s[BareRun(s)..])
    else Bad(BadKeyChar, s)
  }

  function Cons(part: string, r: Parsed<seq<string>>): Parsed<seq<string>> {
    match r
    case Good(v, rest) => Good([part] + v, rest)
    case Bad(k, rest) => Bad(k, rest)
  }

  function KeyPath(s: string): (r: Parsed<seq<string>>)
    ensures |r.rest| <= |s|
    ensures r.Good? ==> |r.rest| < |s| && r.value != []
    decreases |s|
  {
    var s0 := SkipInline(s);
    if s0 == [] then Bad(EndInKey, s0)
    else
      match KeyPart(s0)
      case Bad(k, rest) => Bad(k, rest)
      case Good(part, rest) =>
        var s1 := SkipInline(rest);
        if s1 != [] && s1[0] == '.' then Cons(part, KeyPath(s1[1..])) else Good([part], s1)
  }

  // ----- values -----

  predicate IsNumberChar(c: char) {
    c == '+' || c == '-' || c == '_' || c == '.' || c == 'e' || c == 'E' || IsDigit(c)
  }

  function NumberRun(s: string): (n: nat)
    ensures n <= |s|
  {
    if s != [] && IsNumberChar(s[0]) then 1 + NumberRun(s[1..]) else 0
  }

  /** The scalar a number token denotes. A float is represented by its literal. */
  function NumberValue(raw: string): Option<Scalar> {
    var clean := Remove(raw, '_');
    if ContainsAny(clean, ".eE") then (if IsFloat(clean) then Some(Float(clean)) else None)
    else
      match ParseInt64(clean)
      case None => None
      case Some(i) => Some(Int(i))
  }

  predicate LooksLikeDate(raw: string) {
    Count(raw, '-') > 1 && !ContainsAny(raw, "eE")
  }

  function Number(s: string): (r: Parsed<Scalar>)
    ensures |r.rest| <= |s|
    ensures r.Good? ==> |r.rest| < |s|
  {
    var raw, rest := s[..NumberRun(s)], s[NumberRun(s)..];
    if raw == "" then Bad(ExpectedNumber, rest)
    else if rest != [] && rest[0] in ":TZ" then Bad(BareDatetime, rest)
    else if LooksLikeDate(raw) then Bad(BareDatetime, rest)
    else
      match NumberValue(raw)
      case None => Bad(InvalidNumber, rest)
      case Some(x) => Good(x, rest)
  }

  function Boolean(s: string): (r: Parsed<Scalar>)
    ensures |r.rest| <= |s|
    ensures r.Good? ==> |r.rest| < |s|
  {
    if IsPrefix("true", s) then Good(Bool(true), s[4..])
    else if IsPrefix("false", s) then Good(Bool(false), s[5..])
    else Bad(UnexpectedValue, s)
  }

  function ToLeaf(r: Parsed<Scalar>): Parsed<Tree> {
    match r
    case Good(x, rest) => Good(Leaf(x), rest)
    case Bad(k, rest) => Bad(k, rest)
  }

  function ToStr(r: Parsed<string>): Parsed<Tree> {
    match r
    case Good(x, rest) => Good(Leaf(Str(x)), rest)
    case Bad(k, rest) => Bad(k, rest)
  }

  function ToArr(r: Parsed<seq<Tree>>): Parsed<Tree> {
    match r
    case Good(xs, rest) => Good(Arr(xs), rest)
    case Bad(k, rest) => Bad(k, rest)
  }

  function PrependItems(xs: seq<Tree>, r: Parsed<seq<Tree>>): Parsed<seq<Tree>> {
    match r
    case Good(v, rest) => Good(xs + v, rest)
    case Bad(k, rest) => Bad(k, rest)
  }

  function Value(s: string): (r: Parsed<Tree>)
    ensures |r.rest| <= |s|
    ensures r.Good? ==> |r.rest| < |s| && NoTables(r.value)
    decreases |s|, 0
  {
    if s == [] then Bad(ExpectedValue, s)
    else if s[0] == '"' then
      if IsPrefix("\"\"\"", s) then Bad(MultilineString, s) else ToStr(BasicBody(s[1..]))
    else if s[0] == '\'' then
      if IsPrefix("'''", s) then Bad(MultilineString, s) else ToStr(LiteralBody(s[1..]))
    else if s[0] == '[' then ToArr(Items(s[1..]))
    else if s[0] == '{' then Bad(InlineTable, s)
    else if s[0] == 't' || s[0] == 'f' then ToLeaf(Boolean(s))
    else if s[0] == '+' || s[0] == '-' || IsDigit(s[0]) then ToLeaf(Number(s))
    else Bad(UnexpectedValue, s)
  }

  /** The rest of an array, from a place where an element or the closing bracket may come. */
  function Items(s: string): (r: Parsed<seq<Tree>>)
    ensures |r.rest| <= |s|
    ensures r.Good? ==> |r.rest| < |s| && forall i :: 0 <= i < |r.value| ==> NoTables(r.value[i])
    decreases |s|, 1
  {
    var s0 := SkipBlank(s);
    if s0 == [] then Bad(UnterminatedArray, s0)
    else if s0[0] == ']' then Good([], s0[1..])
    else
      match Value(s0)
      case Bad(k, rest) => Bad(k, rest)
      case Good(v, rest) =>
        var s1 := SkipBlank(rest);
        if s1 == [] then Bad(UnterminatedArray, s1)
        else if s1[0] == ',' then PrependItems([v], Items(s1[1..]))
        else if s1[0] == ']' then Good([v], s1[1..])
        else Bad(ExpectedComma, s1)
  }

  // ----- statements and documents -----

  /** Up to the end of the line: what comes after a statement's own text. */
  function Ended(st: Stmt, rest: string): (r: Parsed<Stmt>)
    ensures |r.rest| <= |rest|
    ensures r.Good? ==> r.value == st
  {
    match LineEnd(rest)
    case Bad(k, e) => Bad(k, e)
    case Good(_, e) => Good(st, e)
  }

  function HeaderLine(s: string): (r: Parsed<Stmt>)
    requires s != []
    ensures |r.rest| < |s|
    ensures r.Good? ==> Proper(r.value)
  {
    var isArray := |s| > 1 && s[1] == '[';
    match KeyPath(if isArray then s[2..] else s[1..])
    case Bad(k, rest) => Bad(k, rest)
    case Good(path, rest) =>
      if rest == [] || rest[0] != ']' then Bad(UnclosedHeader, rest)
      else if !isArray then Ended(Header(path), rest[1..])
      else if |rest| == 1 || rest[1] != ']' then Bad(UnclosedArrayHeader, rest[1..])
      else Ended(ArrayHeader(path), rest[2..])
  }

  function KeyLine(s: string): (r: Parsed<Stmt>)
    ensures |r.rest| <= |s|
    ensures r.Good? ==> |r.rest| < |s| && Proper(r.value)
  {
    match KeyPath(s)
    case Bad(k, rest) => Bad(k, rest)
    case Good(path, rest) =>
      var s0 := SkipInline(rest);
      if s0 == [] || s0[0] != '=' then Bad(ExpectedEquals, s0)
      else
        match Value(SkipInline(s0[1..]))
        case Bad(k, e) => Bad(k, e)
        case Good(v, e) => Ended(KeyVal(path, v), e)
  }

  /** One statement, from its first character. */
  function Line(s: string): (r: Parsed<Stmt>)
    requires s != []
    ensures |r.rest| <= |s|
    ensures r.Good? ==> |r.rest| < |s| && Proper(r.value)
  {
    if s[0] == '[' then HeaderLine(s) else KeyLine(s)
  }

  /** The main loop: statements are read and take effect one by one until the text or the
      first error ends the run. */
  function Run(s: string, d: Doc): (r: Parsed<Doc>)
    requires Ready(d)
    ensures |r.rest| <= |s|
    ensures r.Good? ==> Ready(r.value) && r.rest == []
    decreases |s|
  {
    var s0 := SkipBlank(s);
    if s0 == [] then Good(d, s0)
    else
      match Line(s0)
      case Bad(k, rest) => Bad(k, rest)
      case Good(st, rest) =>
        match Apply(d, st)
        case Err(k) => Bad(k, rest)
        case Ok(d1) =>
          Effects.ApplyReady(d, st);
          Run(rest, d1)
  }
}
