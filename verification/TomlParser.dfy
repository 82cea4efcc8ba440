/** The parser as the program runs it: a cursor and a line counter that move over the
    text, and tables written in place. Every method does what the functions of TomlSyntax
    and TomlTree say. */
module TomlParser {
  import opened Prelude
  import opened Numerals
  import Utf8
  import opened TomlTree
  import opened TomlSyntax
  import opened TomlEffects
  import opened TomlDocument
  import opened TomlHeap

  datatype ParseError = ParseError(line: nat, kind: Kind)

  class Parser {
    const src: string
    const root: Table
    var pos: nat
    var line: nat
    var current: Table
    /** The joined paths of the [table] headers already seen. */
    var explicit: set<string>
    ghost var doc: Doc
    ghost var at: Places

    constructor (src: string)
      ensures this.src == src && pos == 0 && Cursor()
      ensures doc == EMPTY && Heap() && fresh(at.Values)
    {
      this.src := src;
      pos, line := 0, 1;
      var t := new Table();
      root, current := t, t;
      explicit := {};
      doc := EMPTY;
      at := map[[] := t];
      new;
      hide Represents;
      hide Ready;
      hide Uniform;
      EmptyImage(root, at);
    }

    /** In every state, also after an error, the line is one more than the newlines passed. */
    ghost predicate Cursor()
      reads `pos, `line
    {
      pos <= |src| && line == 1 + Newlines(src[..pos])
    }

    ghost function Tail(): string
      reads `pos
      requires pos <= |src|
    {
      src[pos..]
    }

    /** The tables form an unshared image of the tree built so far, and the current table
        sits in it at the current path. */
    ghost predicate Heap()
      reads `current, `explicit, `doc, `at, at.Values
    {
      && Ready(doc) && Uniform(doc.tree) && Represents(root, doc.tree, at)
      && doc.cur in at && current == at[doc.cur] && explicit == doc.explicit
    }

    /** The result is what the scan says, and the cursor stands where the scan stopped. */
    ghost predicate Reports<T>(r: Result<T, ParseError>, p: Parsed<T>)
      reads `pos, `line
      requires pos <= |src|
    {
      match p
      case Good(v, rest) => r == Ok(v) && Tail() == rest
      case Bad(k, rest) => r == Err(ParseError(line, k)) && Tail() == rest
    }

    // ----- the cursor -----

    method Advance() returns (c: char)
      requires Cursor() && pos < |src|
      modifies `pos, `line
      ensures Cursor() && pos == old(pos) + 1 && c == src[old(pos)]
      ensures Tail() == old(Tail())[1..]
    {
      c := src[pos];
      PrefixStep(src, pos);
      TailStep(src, pos);
      pos := pos + 1;
      if c == '\n' { line := line + 1; }
    }

    method SkipBlanks()
      requires Cursor()
      modifies `pos, `line
      ensures Cursor() && pos >= old(pos) && Tail() == SkipBlank(old(Tail()))
    {
      while pos < |src|
        invariant Cursor() && pos >= old(pos) && SkipBlank(Tail()) == SkipBlank(old(Tail()))
        decreases |src| - pos
      {
        TailStep(src, pos);
        if IsSpace(src[pos]) {
          var _ := Advance();
        } else if src[pos] == '#' {
          ghost var start := Tail();
          var _ := Advance();
          while pos < |src| && src[pos] != '\n'
            invariant Cursor() && pos > old(pos) && DropComment(Tail()) == DropComment(start[1..])
            decreases |src| - pos
          {
            TailStep(src, pos);
            var _ := Advance();
          }
        } else {
          return;
        }
      }
    }

    method SkipInlineSpace()
      requires Cursor()
      modifies `pos
      ensures Cursor() && pos >= old(pos) && Tail() == SkipInline(old(Tail()))
    {
      while pos < |src| && IsInline(src[pos])
        invariant Cursor() && pos >= old(pos) && SkipInline(Tail()) == SkipInline(old(Tail()))
      {
        TailStep(src, pos);
        PrefixStep(src, pos);
        pos := pos + 1;
      }
    }

    method ExpectLineEnd() returns (r: Result<(), ParseError>)
      requires Cursor()
      modifies `pos, `line
      ensures Cursor() && pos >= old(pos) && Reports(r, LineEnd(old(Tail())))
    {
      SkipInlineSpace();
      if pos == |src| { return Ok(()); }
      ghost var start := Tail();
      if src[pos] == '\n' {
        var _ := Advance();
        return Ok(());
      } else if src[pos] == '\r' {
        var _ := Advance();
        if pos < |src| && src[pos] == '\n' {
          var _ := Advance();
          assert Tail() == start[2..];
        }
        return Ok(());
      } else if src[pos] == '#' {
        while pos < |src| && src[pos] != '\n'
          invariant Cursor() && pos >= old(pos) && DropComment(Tail()) == DropComment(start)
          decreases |src| - pos
        {
          TailStep(src, pos);
          var _ := Advance();
        }
        return Ok(());
      }
      return Err(ParseError(line, TrailingText));
    }

    // ----- strings -----

    /** From the opening quote. */
    method ParseBasicString() returns (r: Result<string, ParseError>)
      requires Cursor() && pos < |src|
      modifies `pos, `line
      ensures Cursor() && pos > old(pos) && Reports(r, BasicBody(old(Tail())[1..]))
    {
      hide Newlines;
      var _ := Advance();
      ghost var start := Tail();
      var b := "";
      PrependNothing(BasicBody(start));
      while true
        invariant Cursor() && pos > old(pos) && BasicBody(start) == Prepend(b, BasicBody(Tail()))
        decreases |src| - pos
      {
        if pos == |src| { return Err(ParseError(line, UnterminatedString)); }
        TailStep(src, pos);
        var c := src[pos];
        if c == '"' {
          var _ := Advance();
          assert b + "" == b;
          return Ok(b);
        } else if c == '\n' {
          return Err(ParseError(line, NewlineInString));
        } else if c == '\\' {
          ghost var esc := Tail()[1..];
          var _ := Advance();
          var e := ParseEscape();
          match e {
            case Err(x) => return Err(x);
            case Ok(v) =>
              PrependTwice(b, v, BasicBody(Tail()));
              b := b + v;
          }
        } else {
          PrependTwice(b, [c], BasicBody(Tail()[1..]));
          var _ := Advance();
          b := b + [c];
        }
      }
    }

    /** The branches of parseBasicString below a backslash. */
    method ParseEscape() returns (r: Result<string, ParseError>)
      requires Cursor()
      modifies `pos, `line
      ensures Cursor() && pos >= old(pos) && (r.Ok? ==> pos > old(pos)) && Reports(r, Escape(old(Tail())))
    {
      hide Utf8.Encode;
      hide Hex;
      hide Newlines;
      if pos == |src| { return Err(ParseError(line, UnterminatedEscape)); }
      ghost var start := Tail();
      TailStep(src, pos);
      var esc := Advance();
      if SimpleEscape(esc).Some? {
        return Ok([SimpleEscape(esc).value]);
      } else if esc == 'u' || esc == 'U' {
        var n := if esc == 'U' then 8 else 4;
        if pos + n > |src| { return Err(ParseError(line, TruncatedEscape)); }
        var hex := src[pos..pos + n];
        assert hex == start[1..n + 1];
        var v := ParseHex32(hex);
        if v.None? { return Err(ParseError(line, InvalidEscape)); }
        var rune := Utf8.ToRune(v.value);
        if !Utf8.IsScalarValue(rune) { return Err(ParseError(line, NotAScalarValue)); }
        assert forall j :: pos <= j < pos + n ==> src[j] == hex[j - pos];
        assert AllHex(hex);
        NoNewlines(pos, n);
        pos := pos + n;
        assert Tail() == start[n + 1..];
        return Ok(Utf8.Encode(rune));
      }
      return Err(ParseError(line, UnknownEscape));
    }

    /** Skipping bytes that are no newlines does not change the line. */
    lemma NoNewlines(i: nat, n: nat)
      requires i + n <= |src| && forall j :: i <= j < i + n ==> src[j] != '\n'
      ensures Newlines(src[..i + n]) == Newlines(src[..i])
    {
      if n > 0 {
        NoNewlines(i, n - 1);
        PrefixStep(src, i + n - 1);
      }
    }

    /** From the opening quote. */
    method ParseLiteralString() returns (r: Result<string, ParseError>)
      requires Cursor() && pos < |src|
      modifies `pos, `line
      ensures Cursor() && pos > old(pos) && Reports(r, LiteralBody(old(Tail())[1..]))
    {
      hide Newlines;
      hide LiteralBody;
      var _ := Advance();
      var start := pos;
      PrependNothing(LiteralBody(Tail()));
      assert src[start..pos] == [];
      while true
        invariant Cursor() && start <= pos && LiteralBody(src[start..]) == Prepend(src[start..pos], LiteralBody(Tail()))
        decreases |src| - pos
      {
        LiteralUnfolded(Tail());
        if pos == |src| { return Err(ParseError(line, UnterminatedString)); }
        TailStep(src, pos);
        if src[pos] == '\'' {
          var s := src[start..pos];
          assert s + [] == s;
          var _ := Advance();
          return Ok(s);
        }
        if src[pos] == '\n' { return Err(ParseError(line, NewlineInString)); }
        PrependTwice(src[start..pos], [src[pos]], LiteralBody(Tail()[1..]));
        SliceStep(src, start, pos);
        var _ := Advance();
      }
    }

    // ----- keys -----

    method ParseKeyPath() returns (r: Result<seq<string>, ParseError>)
      requires Cursor()
      modifies `pos, `line
      ensures Cursor() && pos >= old(pos) && Reports(r, KeyPath(old(Tail())))
    {
      var path := [];
      PartsNothing(KeyPath(Tail()));
      while true
        invariant Cursor() && pos >= old(pos) && KeyPath(old(Tail())) == PrependParts(path, KeyPath(Tail()))
        decreases |src| - pos
      {
        ghost var start := Tail();
        SkipInlineSpace();
        if pos == |src| { return Err(ParseError(line, EndInKey)); }
        var e := ParseKeyPart();
        if e.Err? { return Err(e.error); }
        var part := e.value;
        SkipInlineSpace();
        ghost var after := Tail();
        if pos < |src| && src[pos] == '.' {
          TailStep(src, pos);
          var _ := Advance();
          ConsTwice(path, part, KeyPath(Tail()));
          path := path + [part];
        } else {
          path := path + [part];
          return Ok(path);
        }
      }
    }

    /** The switch of parseKeyPath on the first character of a key part. */
    method ParseKeyPart() returns (r: Result<string, ParseError>)
      requires Cursor() && pos < |src|
      modifies `pos, `line
      ensures Cursor() && pos >= old(pos) && (r.Ok? ==> pos > old(pos)) && Reports(r, KeyPart(old(Tail())))
    {
      var c := src[pos];
      if c == '"' {
        r := ParseBasicString();
      } else if c == '\'' {
        r := ParseLiteralString();
      } else if IsBareKeyChar(c) {
        var part := ParseBareKey();
        r := Ok(part);
      } else {
        r := Err(ParseError(line, BadKeyChar));
      }
    }

    /** The bare branch of that switch. */
    method ParseBareKey() returns (part: string)
      requires Cursor() && pos < |src| && IsBareKeyChar(src[pos])
      modifies `pos
      ensures Cursor() && pos > old(pos)
      ensures part == old(Tail())[..BareRun(old(Tail()))] && Tail() == old(Tail())[BareRun(old(Tail()))..]
    {
      var start := pos;
      BareRunPositive(Tail());
      while pos < |src| && IsBareKeyChar(src[pos])
        invariant Cursor() && start <= pos && BareRun(src[start..]) == pos - start + BareRun(Tail())
      {
        TailStep(src, pos);
        PrefixStep(src, pos);
        pos := pos + 1;
      }
      part := src[start..pos];
      SliceTail(src, start, pos);
    }

    // ----- values -----

    method ParseBool() returns (r: Result<Scalar, ParseError>)
      requires Cursor()
      modifies `pos
      ensures Cursor() && pos >= old(pos) && Reports(r, Boolean(old(Tail())))
    {
      ghost var start := Tail();
      if pos + 4 <= |src| && src[pos..pos + 4] == "true" {
        assert start[..4] == "true";
        assert forall j :: pos <= j < pos + 4 ==> src[j] == "true"[j - pos];
        NoNewlines(pos, 4);
        pos := pos + 4;
        return Ok(Bool(true));
      }
      assert !IsPrefix("true", start) by { if |start| >= 4 { assert start[..4] == src[pos..pos + 4]; } }
      if pos + 5 <= |src| && src[pos..pos + 5] == "false" {
        assert start[..5] == "false";
        assert forall j :: pos <= j < pos + 5 ==> src[j] == "false"[j - pos];
        NoNewlines(pos, 5);
        pos := pos + 5;
        return Ok(Bool(false));
      }
      assert !IsPrefix("false", start) by { if |start| >= 5 { assert start[..5] == src[pos..pos + 5]; } }
      return Err(ParseError(line, UnexpectedValue));
    }

    /** The loop over the bytes of a number token. */
    method NumberToken() returns (raw: string)
      requires Cursor()
      modifies `pos
      ensures Cursor() && pos >= old(pos)
      ensures raw == old(Tail())[..NumberRun(old(Tail()))] && Tail() == old(Tail())[NumberRun(old(Tail()))..]
    {
      var start := pos;
      while pos < |src| && IsNumberChar(src[pos])
        invariant Cursor() && start <= pos && NumberRun(src[start..]) == pos - start + NumberRun(Tail())
      {
        TailStep(src, pos);
        PrefixStep(src, pos);
        pos := pos + 1;
      }
      raw := src[start..pos];
      SliceTail(src, start, pos);
    }

    method ParseNumber() returns (r: Result<Scalar, ParseError>)
      requires Cursor()
      modifies `pos
      ensures Cursor() && pos >= old(pos) && Reports(r, Number(old(Tail())))
    {
      hide NumberRun;
      hide NumberValue;
      hide LooksLikeDate;
      hide Newlines;
      var raw := NumberToken();
      if raw == "" { return Err(ParseError(line, ExpectedNumber)); }
      if pos < |src| && src[pos] in ":TZ" { return Err(ParseError(line, BareDatetime)); }
      if LooksLikeDate(raw) { return Err(ParseError(line, BareDatetime)); }
      match NumberValue(raw) {
        case None => return Err(ParseError(line, InvalidNumber));
        case Some(x) => return Ok(x);
      }
    }

    /** Like Reports, for the Go value of a table-free tree. */
    ghost predicate Yields(r: Result<Any, ParseError>, p: Parsed<Tree>)
      reads `pos, `line
      requires pos <= |src| && (p.Good? ==> NoTables(p.value))
    {
      match p
      case Good(v, rest) => r == Ok(Embed(v)) && Tail() == rest
      case Bad(k, rest) => r == Err(ParseError(line, k)) && Tail() == rest
    }

    method ParseValue() returns (r: Result<Any, ParseError>)
      requires Cursor()
      modifies `pos, `line
      ensures Cursor() && pos >= old(pos) && Yields(r, Value(old(Tail())))
      decreases |src| - pos, 1
    {
      ghost var start := Tail();
      if pos == |src| { return Err(ParseError(line, ExpectedValue)); }
      var c := src[pos];
      if c == '"' {
        if HasPrefix("\"\"\"") { return Err(ParseError(line, MultilineString)); }
        var s := ParseBasicString();
        r := match s case Ok(v) => Ok(Plain(Str(v))) case Err(e) => Err(e);
      } else if c == '\'' {
        if HasPrefix("'''") { return Err(ParseError(line, MultilineString)); }
        var s := ParseLiteralString();
        r := match s case Ok(v) => Ok(Plain(Str(v))) case Err(e) => Err(e);
      } else if c == '[' {
        r := ParseArray();
      } else if c == '{' {
        r := Err(ParseError(line, InlineTable));
      } else if c == 't' || c == 'f' {
        var b := ParseBool();
        r := match b case Ok(v) => Ok(Plain(v)) case Err(e) => Err(e);
      } else if c == '+' || c == '-' || IsDigit(c) {
        var n := ParseNumber();
        r := match n case Ok(v) => Ok(Plain(v)) case Err(e) => Err(e);
      } else {
        r := Err(ParseError(line, UnexpectedValue));
      }
    }

    /** strings.HasPrefix on the rest of the text. */
    predicate HasPrefix(w: string)
      reads `pos
      requires pos <= |src|
      ensures HasPrefix(w) == IsPrefix(w, Tail())
    {
      assert pos + |w| <= |src| ==> Tail()[..|w|] == src[pos..pos + |w|];
      pos + |w| <= |src| && src[pos..pos + |w|] == w
    }

    /** From the opening bracket. */
    method ParseArray() returns (r: Result<Any, ParseError>)
      requires Cursor() && pos < |src|
      modifies `pos, `line
      ensures Cursor() && pos > old(pos) && Yields(r, ToArr(TomlSyntax.Items(old(Tail())[1..])))
      decreases |src| - pos, 0
    {
      hide Newlines;
      hide SkipBlank;
      hide Value;
      hide NoTables;
      hide Embed;
      hide TomlSyntax.Items;
      hide ToArr;
      hide PrependItems;
      hide Embeds;
      var _ := Advance();
      ghost var start := Tail();
      var arr: seq<Any> := [];
      ghost var vs: seq<Tree> := [];
      ItemsNothing(TomlSyntax.Items(start));
      EmbedsNone();
      while true
        invariant Cursor() && pos > old(pos) && Embeds(arr, vs)
        invariant TomlSyntax.Items(start) == PrependItems(vs, TomlSyntax.Items(Tail()))
        decreases |src| - pos
      {
        ghost var here := TomlSyntax.Items(Tail());
        ItemsUnfolded(Tail());
        ArrayOf(vs, here);
        SkipBlanks();
        if pos == |src| { return Err(ParseError(line, UnterminatedArray)); }
        TailStep(src, pos);
        if src[pos] == ']' {
          var _ := Advance();
          assert vs + [] == vs;
          EmbedArr(arr, vs);
          return Ok(TomlHeap.Items(arr));
        }
        ghost var elem := Value(Tail());
        var v := ParseValue();
        if v.Err? { return Err(v.error); }
        SkipBlanks();
        if pos == |src| { return Err(ParseError(line, UnterminatedArray)); }
        TailStep(src, pos);
        if src[pos] == ',' {
          var _ := Advance();
          assert here == PrependItems([elem.value], TomlSyntax.Items(Tail()));
          ItemsTwice(vs, elem.value, TomlSyntax.Items(Tail()));
          EmbedsMore(arr, vs, v.value, elem.value);
          arr, vs := arr + [v.value], vs + [elem.value];
        } else if src[pos] == ']' {
          EmbedsMore(arr, vs, v.value, elem.value);
          arr, vs := arr + [v.value], vs + [elem.value];
          var _ := Advance();
          EmbedArr(arr, vs);
          return Ok(TomlHeap.Items(arr));
        } else {
          return Err(ParseError(line, ExpectedComma));
        }
      }
    }

    // ----- tables -----

    /** Stores a Go value in a table and puts the empty table `n` at the place `p`. */
    method Store(t: Table, ghost q: Path, k: string, a: Any, ghost p: Path, ghost n: Table, ghost tree: Tree)
      requires q in at && at[q] == t && [] in at && at[[]] == root && Unshared(at)
      requires p !in at && n !in at.Values && n.m == map[]
      requires Consistent(View(at)[q := t.m[k := a]][p := map[]], at[p := n], tree)
      modifies t, `at
      ensures at == old(at)[p := n] && n.m == map[] && Represents(root, tree, at)
    {
      hide Consistent;
      hide Unshared;
      hide View;
      hide Represents;
      ghost var c := View(at)[q := t.m[k := a]][p := map[]];
      OtherTables(at, q);
      UnsharedMore(at, p, n);
      t.m := t.m[k := a];
      forall r | r in at && r != q ensures at[r].m == c[r] {
        assert at[r] != t;
      }
      at := at[p := n];
      ImageFrom(root, at, tree, c);
    }

    /** Writes one entry that is a fresh empty table. */
    method NewSubtable(t: Table, ghost q: Path, k: string) returns (n: Table)
      requires Heap() && q in at && at[q] == t && k !in t.m
      modifies t, `doc, `at
      ensures Heap() && IsTable(old(doc.tree), q)
      ensures doc == old(doc).(tree := Put(old(doc.tree), q, k, Map(map[])))
      ensures at == old(at)[q + [Key(k)] := n] && fresh(n) && n.m == map[]
    {
      hide Get;
      hide Put;
      hide IsTable;
      hide Consistent;
      hide Unshared;
      hide Uniform;
      hide Ready;
      hide Denotes;
      hide View;
      hide Represents;
      n := new Table();
      ghost var tree := doc.tree;
      ImageContents(root, at, tree);
      SubtableConsistent(View(at), at, tree, q, k, n);
      ConsistentTable(View(at), at, tree, q);
      EmptyUniform();
      UniformPut(tree, q, k, Map(map[]));
      Store(t, q, k, Ref(n), q + [Key(k)], n, Put(tree, q, k, Map(map[])));
      doc := doc.(tree := Put(tree, q, k, Map(map[])));
      ImageReady(root, at, doc);
    }

    lemma HeapReady()
      requires Heap()
      ensures Ready(doc)
      ensures [] in at && at[[]] == root && doc.cur in at && at[doc.cur] == current
    {
    }

    lemma HeapImage()
      requires Heap()
      ensures Ready(doc) && Uniform(doc.tree) && Represents(root, doc.tree, at)
    {
    }

    /** Any placed table may become the current one. */
    lemma PlacedReady(q: Path)
      requires Heap() && q in at
      ensures forall e :: Ready(Doc(doc.tree, q, e))
    {
      ConsistentTable(View(at), at, doc.tree, q);
    }

    /** What a placed table says about an entry of the tree. */
    lemma Entry(q: Path, k: string)
      requires Heap() && q in at
      ensures Ready(doc) && IsTable(doc.tree, q)
      ensures EntryMatches(at[q].m, TableAt(doc.tree, q), q, k, at)
    {
      EntryDenotes(View(at), at, doc.tree, q, k);
    }

    /** Walks and creates intermediate tables for a header path. */
    method Descend(path: seq<string>) returns (r: Result<Table, Kind>, ghost q: Path)
      requires Heap()
      modifies `doc, `at, at.Values
      ensures Heap() && fresh(at.Values - old(at.Values))
      ensures doc.cur == old(doc.cur) && doc.explicit == old(doc.explicit)
      ensures IsTable(old(doc.tree), [])
      ensures match Walk(old(doc.tree), [], path, true)
              case Ok(Spot(t, q')) => q' == q && doc.tree == t && q in at && r == Ok(at[q])
              case Err(k) => r == Err(k)
    {
      hide Heap;
      HeapReady();
      hide Get;
      hide Put;
      hide IsTable;
      hide Walk;
      hide Consistent;
      hide Unshared;
      hide Uniform;
      hide Ready;
      var cur := root;
      q := [];
      Entry([], "");
      var i := 0;
      assert path[0..] == path;
      while i < |path|
        invariant 0 <= i <= |path|
        invariant Heap() && fresh(at.Values - old(at.Values)) && q in at && cur == at[q]
        invariant doc.cur == old(doc.cur) && doc.explicit == old(doc.explicit)
        invariant IsTable(old(doc.tree), []) && IsTable(doc.tree, q)
        invariant Walk(doc.tree, q, path[i..], true) == Walk(old(doc.tree), [], path, true)
      {
        var part := path[i];
        assert path[i..][0] == part && path[i..][1..] == path[i + 1..];
        Entry(q, part);
        WalkStep(doc.tree, q, path[i..], true);
        if part !in cur.m {
          cur := NewSubtable(cur, q, part);
          q := q + [Key(part)];
        } else {
          match cur.m[part] {
            case Plain(_) => return Err(HoldsValue), q;
            case Ref(t) =>
              cur := t;
              q := q + [Key(part)];
            case Items(elems) =>
              if elems == [] { return Err(EmptyArray), q; }
              match elems[|elems| - 1] {
                case Ref(t) =>
                  cur := t;
                  q := q + [Key(part)] + [Idx(|elems| - 1)];
                case _ => return Err(ArrayOfValues), q;
              }
          }
        }
        i := i + 1;
      }
      assert path[i..] == [];
      WalkDone(doc.tree, q, true);
      r := Ok(cur);
    }

    method OpenTable(path: seq<string>) returns (r: Result<(), Kind>)
      requires Heap()
      modifies `doc, `at, `current, `explicit, at.Values
      ensures Heap() && fresh(at.Values - old(at.Values))
      ensures match TomlTree.OpenTable(old(doc), path) case Ok(d) => r == Ok(()) && doc == d case Err(k) => r == Err(k)
    {
      hide Get;
      hide Put;
      hide IsTable;
      hide Walk;
      hide Consistent;
      hide Unshared;
      hide Uniform;
      hide Ready;
      hide View;
      hide Represents;
      hide JoinNul;
      HeapReady();
      var key := JoinNul(path);
      if key in explicit { return Err(DefinedTwice); }
      var tbl, q := Descend(path);
      if tbl.Err? { return Err(tbl.error); }
      PlacedReady(q);
      explicit := explicit + {key};
      current := tbl.value;
      doc := Doc(doc.tree, q, explicit);
      assert Ready(doc);
      return Ok(());
    }

    method OpenArrayTable(path: seq<string>) returns (r: Result<(), Kind>)
      requires Heap() && path != []
      modifies `doc, `at, `current, at.Values
      ensures Heap() && fresh(at.Values - old(at.Values))
      ensures match TomlTree.OpenArray(old(doc), path) case Ok(d) => r == Ok(()) && doc == d case Err(k) => r == Err(k)
    {
      hide Ready;
      hide Denotes;
      hide Mirrors;
      hide View;
      hide Heap;
      hide Get;
      hide Put;
      hide IsTable;
      hide Walk;
      hide Consistent;
      hide Unshared;
      hide Uniform;
      var parent, q := Descend(path[..|path| - 1]);
      if parent.Err? { return Err(parent.error); }
      var name := path[|path| - 1];
      Entry(q, name);
      var existing: seq<Any> := [];
      if name in parent.value.m {
        match parent.value.m[name] {
          case Items(elems) =>
            existing := elems;
            if existing != [] && !existing[|existing| - 1].Ref? { return Err(CannotExtend); }
          case _ => return Err(NotAnArray);
        }
      }
      AppendTable(parent.value, q, name, existing);
      return Ok(());
    }

    /** `parent[name] = append(existing, tbl)` for a fresh empty table that becomes current. */
    method AppendTable(parent: Table, ghost q: Path, name: string, existing: seq<Any>)
      requires Heap() && q in at && at[q] == parent
      requires if name in parent.m then parent.m[name] == Items(existing) else existing == []
      requires existing != [] ==> existing[|existing| - 1].Ref?
      modifies parent, `doc, `at, `current
      ensures Heap() && fresh(at.Values - old(at.Values))
      ensures IsTable(old(doc.tree), q)
      ensures var m := TableAt(old(doc.tree), q);
              && (name in m ==> m[name].Arr?)
              && var ts := if name in m then m[name].elems else [];
                 doc == Doc(Put(old(doc.tree), q, name, Arr(ts + [Map(map[])])), q + [Key(name), Idx(|ts|)],
                            old(doc.explicit))
    {
      hide Get;
      hide Put;
      hide IsTable;
      hide Consistent;
      hide Unshared;
      hide Uniform;
      hide Ready;
      hide Denotes;
      hide View;
      hide Mirrors;
      hide Represents;
      ghost var tree := doc.tree;
      ImageContents(root, at, tree);
      EntryDenotes(View(at), at, tree, q, name);
      ghost var m := TableAt(tree, q);
      ghost var ts := if name in m then m[name].elems else [];
      ghost var p := q + [Key(name), Idx(|ts|)];
      var tbl := new Table();
      ElementConsistent(View(at), at, tree, q, name, existing, ts, tbl);
      ExtendUniform(tree, q, name, ts);
      ghost var tree' := Put(tree, q, name, Arr(ts + [Map(map[])]));
      Store(parent, q, name, Items(existing + [Ref(tbl)]), p, tbl, tree');
      current := tbl;
      doc := Doc(tree', p, explicit);
      ImageReady(root, at, doc);
    }

    /** The walk of parseKeyValue: dotted keys create intermediate tables under the current
        table. */
    method DescendKeys(path: seq<string>) returns (r: Result<Table, Kind>, ghost q: Path)
      requires Heap() && path != []
      modifies `doc, `at, at.Values
      ensures Heap() && fresh(at.Values - old(at.Values))
      ensures doc.cur == old(doc.cur) && doc.explicit == old(doc.explicit)
      ensures IsTable(old(doc.tree), old(doc.cur))
      ensures match Walk(old(doc.tree), old(doc.cur), path[..|path| - 1], false)
              case Ok(Spot(t, q')) => q' == q && doc.tree == t && q in at && r == Ok(at[q])
              case Err(k) => r == Err(k)
    {
      hide Heap;
      HeapReady();
      hide Get;
      hide Put;
      hide IsTable;
      hide Walk;
      hide Consistent;
      hide Unshared;
      hide Uniform;
      hide Ready;
      var tbl := current;
      q := doc.cur;
      Entry(q, "");
      ghost var front := path[..|path| - 1];
      var i := 0;
      assert front[0..] == front;
      while i < |path| - 1
        invariant 0 <= i <= |path| - 1
        invariant Heap() && fresh(at.Values - old(at.Values)) && q in at && tbl == at[q]
        invariant doc.cur == old(doc.cur) && doc.explicit == old(doc.explicit)
        invariant IsTable(old(doc.tree), old(doc.cur)) && IsTable(doc.tree, q)
        invariant Walk(doc.tree, q, front[i..], false) == Walk(old(doc.tree), old(doc.cur), front, false)
      {
        var part := path[i];
        assert front[i..][0] == part && front[i..][1..] == front[i + 1..];
        Entry(q, part);
        WalkStep(doc.tree, q, front[i..], false);
        if part !in tbl.m {
          tbl := NewSubtable(tbl, q, part);
        } else {
          match tbl.m[part] {
            case Ref(t) => tbl := t;
            case _ => return Err(HoldsValue), q;
          }
        }
        q := q + [Key(part)];
        i := i + 1;
      }
      assert front[i..] == [];
      WalkDone(doc.tree, q, false);
      r := Ok(tbl);
    }

    /** The tree half of parseKeyValue: the walk, and the last part must be free. */
    method SetKey(path: seq<string>, val: Any, ghost v: Tree) returns (r: Result<(), Kind>)
      requires Heap() && path != [] && NoTables(v) && val == Embed(v)
      modifies `doc, `at, at.Values
      ensures Heap() && fresh(at.Values - old(at.Values))
      ensures match AddKey(old(doc), path, v) case Ok(d) => r == Ok(()) && doc == d case Err(k) => r == Err(k)
    {
      hide Heap;
      HeapReady();
      hide Get;
      hide Ready;
      hide Embed;
      hide View;
      hide Denotes;
      hide Mirrors;
      hide Put;
      hide IsTable;
      hide Walk;
      hide Consistent;
      hide Unshared;
      hide Uniform;
      var tbl, q := DescendKeys(path);
      if tbl.Err? { return Err(tbl.error); }
      var leaf := path[|path| - 1];
      Entry(q, leaf);
      if leaf in tbl.value.m { return Err(SetTwice); }
      WriteLeaf(tbl.value, q, leaf, val, v);
      return Ok(());
    }

    method WriteLeaf(t: Table, ghost q: Path, k: string, val: Any, ghost v: Tree)
      requires Heap() && q in at && at[q] == t && k !in t.m && NoTables(v) && val == Embed(v)
      modifies t, `doc
      ensures Heap() && IsTable(old(doc.tree), q) && doc == old(doc).(tree := Put(old(doc.tree), q, k, v))
    {
      hide Denotes;
      hide Mirrors;
      hide EntryMatches;
      hide Embed;
      hide Extends;
      hide Get;
      hide Put;
      hide IsTable;
      hide Walk;
      hide Consistent;
      hide Unshared;
      hide Uniform;
      hide Ready;
      hide Represents;
      hide View;
      ghost var c := View(at);
      ImageContents(root, at, doc.tree);
      EntryDenotes(c, at, doc.tree, q, k);
      ValueConsistent(c, at, doc.tree, q, k, v);
      NoTablesUniform(v);
      UniformPut(doc.tree, q, k, v);
      OtherTables(at, q);
      t.m := t.m[k := val];
      doc := doc.(tree := Put(doc.tree, q, k, v));
      ImageFrom(root, at, doc.tree, c[q := c[q][k := Embed(v)]]);
      ImageReady(root, at, doc);
    }

    // ----- statements -----

    /** The statement that was read took effect, or the error is the one the scan or the
        tree reports, at the line where the cursor stands. */
    ghost predicate Does(r: Result<(), ParseError>, p: Parsed<Stmt>, d: Doc)
      reads `pos, `line, `doc
      requires pos <= |src| && Ready(d) && (p.Good? ==> Proper(p.value))
    {
      match p
      case Bad(k, rest) => r == Err(ParseError(line, k)) && Tail() == rest && doc == d
      case Good(st, rest) =>
        Tail() == rest &&
        match Apply(d, st)
        case Err(k) => r == Err(ParseError(line, k))
        case Ok(d1) => r == Ok(()) && doc == d1
    }

    /** p.errf puts the current line into an error of the tree. */
    function AtLine(r: Result<(), Kind>): Result<(), ParseError>
      reads `line
    {
      match r case Ok(_) => Ok(()) case Err(k) => Err(ParseError(line, k))
    }

    /** The first half of parseTableHeader: the text of the header up to the end of its line. */
    method ReadHeader() returns (r: Result<Stmt, ParseError>)
      requires Cursor() && pos < |src|
      modifies `pos, `line
      ensures Cursor() && Reports(r, HeaderLine(old(Tail()))) && (r.Ok? ==> !r.value.KeyVal?)
    {
      hide Newlines;
      hide KeyPath;
      hide LineEnd;
      hide NoTables;
      ghost var start := Tail();
      var _ := Advance();
      var isArray := pos < |src| && src[pos] == '[';
      if isArray {
        var _ := Advance();
        assert Tail() == start[2..];
      }
      var path := ParseKeyPath();
      if path.Err? { return Err(path.error); }
      if pos == |src| || src[pos] != ']' { return Err(ParseError(line, UnclosedHeader)); }
      r := CloseHeader(path.value, isArray);
    }

    /** The closing brackets of a header and the end of its line. */
    method CloseHeader(path: seq<string>, isArray: bool) returns (r: Result<Stmt, ParseError>)
      requires Cursor() && pos < |src| && src[pos] == ']'
      modifies `pos, `line
      ensures Cursor() && (r.Ok? ==> r.value == if isArray then ArrayHeader(path) else Header(path))
      ensures var rest := old(Tail());
              if !isArray then Reports(r, Ended(Header(path), rest[1..]))
              else if |rest| == 1 || rest[1] != ']' then Reports(r, Bad(UnclosedArrayHeader, rest[1..]))
              else Reports(r, Ended(ArrayHeader(path), rest[2..]))
    {
      hide Newlines;
      hide LineEnd;
      ghost var rest := Tail();
      var _ := Advance();
      if isArray {
        if pos == |src| || src[pos] != ']' { return Err(ParseError(line, UnclosedArrayHeader)); }
        var _ := Advance();
        assert Tail() == rest[2..];
      }
      var e := ExpectLineEnd();
      if e.Err? { return Err(e.error); }
      return Ok(if isArray then ArrayHeader(path) else Header(path));
    }

    method ParseTableHeader() returns (r: Result<(), ParseError>)
      requires Cursor() && Heap() && pos < |src|
      modifies this, at.Values
      ensures Cursor() && Heap() && fresh(at.Values - old(at.Values))
      ensures Does(r, HeaderLine(old(Tail())), old(doc))
    {
      hide HeaderLine;
      hide Ready;
      hide Heap;
      hide TomlTree.OpenTable;
      hide TomlTree.OpenArray;
      HeapReady();
      var st := ReadHeader();
      match st {
        case Err(x) => return Err(x);
        case Ok(ArrayHeader(path)) =>
          var o := OpenArrayTable(path);
          return AtLine(o);
        case Ok(Header(path)) =>
          var o := OpenTable(path);
          return AtLine(o);
      }
    }

    /** The first half of parseKeyValue: key, value and the end of the line. */
    method ReadKeyValue() returns (r: Result<(seq<string>, Any), ParseError>)
      requires Cursor()
      modifies `pos, `line
      ensures Cursor()
      ensures match KeyLine(old(Tail()))
              case Bad(k, rest) => r == Err(ParseError(line, k)) && Tail() == rest
              case Good(st, rest) => st.KeyVal? && r == Ok((st.path, Embed(st.v))) && Tail() == rest
    {
      hide KeyPath;
      hide LineEnd;
      hide Value;
      hide NoTables;
      hide SkipInline;
      hide Embed;
      hide Newlines;
      var path := ParseKeyPath();
      if path.Err? { return Err(path.error); }
      SkipInlineSpace();
      if pos == |src| || src[pos] != '=' { return Err(ParseError(line, ExpectedEquals)); }
      var _ := Advance();
      SkipInlineSpace();
      var val := ParseValue();
      if val.Err? { return Err(val.error); }
      var e := ExpectLineEnd();
      if e.Err? { return Err(e.error); }
      return Ok((path.value, val.value));
    }

    method ParseKeyValue() returns (r: Result<(), ParseError>)
      requires Cursor() && Heap()
      modifies this, at.Values
      ensures Cursor() && Heap() && fresh(at.Values - old(at.Values))
      ensures Does(r, KeyLine(old(Tail())), old(doc))
    {
      hide KeyLine;
      hide Ready;
      hide Heap;
      hide AddKey;
      hide NoTables;
      hide Embed;
      HeapReady();
      ghost var st := KeyLine(Tail());
      var kv := ReadKeyValue();
      match kv {
        case Err(x) => return Err(x);
        case Ok((path, val)) =>
          var o := SetKey(path, val, st.value.v);
          return AtLine(o);
      }
    }

    /** One statement: the branch in the loop of Parse. */
    method Statement() returns (r: Result<(), ParseError>)
      requires Cursor() && Heap() && pos < |src|
      modifies this, at.Values
      ensures Cursor() && Heap() && fresh(at.Values - old(at.Values))
      ensures Does(r, Line(old(Tail())), old(doc)) && (r.Ok? ==> pos > old(pos))
    {
      hide HeaderLine;
      hide KeyLine;
      hide Heap;
      hide Ready;
      hide Apply;
      HeapReady();
      if src[pos] == '[' {
        r := ParseTableHeader();
      } else {
        r := ParseKeyValue();
      }
    }

    /** The loop of Parse. */
    method Statements() returns (r: Result<(), ParseError>)
      requires Cursor() && Heap()
      modifies this, at.Values
      ensures Cursor() && Heap() && fresh(at.Values - old(at.Values))
      ensures match Run(old(Tail()), old(doc))
              case Good(d, rest) => r == Ok(()) && Tail() == rest && doc == d
              case Bad(k, rest) => r == Err(ParseError(line, k)) && Tail() == rest
    {
      hide Line;
      hide Apply;
      hide SkipBlank;
      hide Ready;
      hide Heap;
      hide Run;
      HeapReady();
      while true
        invariant Cursor() && Heap() && fresh(at.Values - old(at.Values))
        invariant Ready(old(doc)) && Ready(doc) && Run(Tail(), doc) == Run(old(Tail()), old(doc))
        decreases |src| - pos
      {
        RunUnfolded(Tail(), doc);
        SkipBlanks();
        if pos == |src| { return Ok(()); }
        var e := Statement();
        if e.Err? { return e; }
        HeapReady();
      }
    }
  }

  /** toml.Parse. It ends on every input; it accepts exactly the texts ParseDoc accepts and
      returns tables that are an unshared image of the same tree; an error has the same
      kind, and its line is the one that holds the first unread byte. */
  method Parse(src: string) returns (r: Result<Table, ParseError>, ghost at: Places)
    ensures fresh(at.Values)
    ensures match Run(src, EMPTY)
            case Good(d, _) => r.Ok? && Uniform(d.tree) && Represents(r.value, d.tree, at)
            case Bad(k, rest) => r == Err(ParseError(1 + Newlines(src[..|src| - |rest|]), k))
  {
    hide Run;
    hide Represents;
    hide View;
    hide Get;
    hide Uniform;
    hide Ready;
    hide Newlines;
    hide Parser.Heap;
    var p := new Parser(src);
    assert p.Tail() == src;
    p.HeapReady();
    var e := p.Statements();
    p.HeapImage();
    at := p.at;
    assert p.pos == |src| - |p.Tail()|;
    r := match e case Ok(_) => Ok(p.root) case Err(x) => Err(x);
  }

  function PrependParts(parts: seq<string>, r: Parsed<seq<string>>): Parsed<seq<string>> {
    match r
    case Good(v, rest) => Good(parts + v, rest)
    case Bad(k, rest) => Bad(k, rest)
  }

  lemma EmptyUniform()
    ensures Uniform(Map(map[]))
  {
  }

  lemma ExtendUniform(t: Tree, q: Path, k: string, ts: seq<Tree>)
    requires IsTable(t, q) && Uniform(t)
    requires if k in TableAt(t, q) then TableAt(t, q)[k] == Arr(ts) else ts == []
    requires ts != [] ==> ts[|ts| - 1].Map?
    ensures Uniform(Put(t, q, k, Arr(ts + [Map(map[])])))
  {
    UniformGet(t, q);
    if ts != [] {
      assert Uniform(Arr(ts)) && !NoTables(ts[|ts| - 1]);
    }
    UniformPut(t, q, k, Arr(ts + [Map(map[])]));
  }

  lemma BareRunPositive(s: string)
    requires s != [] && IsBareKeyChar(s[0])
    ensures BareRun(s) > 0
  {
  }

  lemma SliceStep(s: string, i: nat, j: nat)
    requires i <= j < |s|
    ensures s[i..j] + [s[j]] == s[i..j + 1]
  {
  }

  lemma SliceTail(s: string, i: nat, j: nat)
    requires i <= j <= |s|
    ensures s[i..][..j - i] == s[i..j] && s[i..][j - i..] == s[j..]
  {
  }

  lemma PrependNothing(r: Parsed<string>)
    ensures Prepend([], r) == r
  {
    if r.Good? { assert [] + r.value == r.value; }
  }

  lemma PartsNothing(r: Parsed<seq<string>>)
    ensures PrependParts([], r) == r
  {
    if r.Good? { assert [] + r.value == r.value; }
  }

  lemma ItemsNothing(r: Parsed<seq<Tree>>)
    ensures PrependItems([], r) == r
  {
    if r.Good? { assert [] + r.value == r.value; }
  }

  lemma PrependTwice(a: string, b: string, r: Parsed<string>)
    ensures Prepend(a, Prepend(b, r)) == Prepend(a + b, r)
  {
    if r.Good? { assert a + (b + r.value) == a + b + r.value; }
  }

  lemma ConsTwice(a: seq<string>, part: string, r: Parsed<seq<string>>)
    ensures PrependParts(a, Cons(part, r)) == PrependParts(a + [part], r)
  {
    if r.Good? { assert a + ([part] + r.value) == a + [part] + r.value; }
  }

  lemma ItemsTwice(a: seq<Tree>, v: Tree, r: Parsed<seq<Tree>>)
    ensures PrependItems(a, PrependItems([v], r)) == PrependItems(a + [v], r)
  {
    if r.Good? { assert a + ([v] + r.value) == a + [v] + r.value; }
  }

  /** One statement of a text, or its end. */
  lemma RunUnfolded(s: string, d: Doc)
    requires Ready(d)
    ensures SkipBlank(s) == [] ==> Run(s, d) == Good(d, [])
    ensures SkipBlank(s) != [] ==>
              var l := Line(SkipBlank(s));
              && (l.Bad? ==> Run(s, d) == Bad(l.kind, l.rest))
              && (l.Good? && Apply(d, l.value).Err? ==> Run(s, d) == Bad(Apply(d, l.value).error, l.rest))
              && (l.Good? && Apply(d, l.value).Ok? ==>
                    Ready(Apply(d, l.value).value) && Run(s, d) == Run(l.rest, Apply(d, l.value).value))
  {
    hide Line;
    hide Apply;
    hide SkipBlank;
    var s0 := SkipBlank(s);
    if s0 != [] && Line(s0).Good? && Apply(d, Line(s0).value).Ok? {
      ApplyReady(d, Line(s0).value);
    }
  }

  /** One byte of a literal string, or its end. */
  lemma LiteralUnfolded(s: string)
    ensures LiteralBody(s) == if s == [] then Bad(UnterminatedString, s)
                              else if s[0] == '\'' then Good([], s[1..])
                              else if s[0] == '\n' then Bad(NewlineInString, s)
                              else Prepend([s[0]], LiteralBody(s[1..]))
  {
  }

  /** One element of an array, or its end. */
  lemma ItemsUnfolded(s: string)
    ensures TomlSyntax.Items(s)
         == var s0 := SkipBlank(s);
            if s0 == [] then Bad(UnterminatedArray, s0)
            else if s0[0] == ']' then Good([], s0[1..])
            else
              match Value(s0)
              case Bad(k, rest) => Bad(k, rest)
              case Good(v, rest) =>
                var s1 := SkipBlank(rest);
                if s1 == [] then Bad(UnterminatedArray, s1)
                else if s1[0] == ',' then PrependItems([v], TomlSyntax.Items(s1[1..]))
                else if s1[0] == ']' then Good([v], s1[1..])
                else Bad(ExpectedComma, s1)
  {
    hide Value;
    hide SkipBlank;
  }

  lemma ArrayOf(vs: seq<Tree>, r: Parsed<seq<Tree>>)
    ensures ToArr(PrependItems(vs, r)) == match r
                                          case Good(xs, rest) => Good(Arr(vs + xs), rest)
                                          case Bad(k, rest) => Bad(k, rest)
  {
  }

  /** The Go values are those of the trees, one by one. */
  predicate Embeds(arr: seq<Any>, vs: seq<Tree>) {
    |arr| == |vs| && forall i :: 0 <= i < |vs| ==> NoTables(vs[i]) && arr[i] == Embed(vs[i])
  }

  lemma EmbedsNone()
    ensures Embeds([], [])
  {
  }

  lemma EmbedsMore(arr: seq<Any>, vs: seq<Tree>, a: Any, v: Tree)
    requires Embeds(arr, vs) && NoTables(v) && a == Embed(v)
    ensures Embeds(arr + [a], vs + [v])
  {
    hide NoTables;
    hide Embed;
  }

  lemma EmbedArr(arr: seq<Any>, vs: seq<Tree>)
    requires Embeds(arr, vs)
    ensures NoTables(Arr(vs)) && Embed(Arr(vs)) == TomlHeap.Items(arr)
  {
  }
}
