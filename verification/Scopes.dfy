/** Scope strings: splitting at white space, removing duplicates, and what survives being
    joined, carried through JSON and split again. */
module Scopes {
  import opened Prelude
  import opened Order
  import Json
  import Utf8

  /** unicode.IsSpace. */
  predicate IsSpaceRune(v: int) {
    9 <= v <= 13 || v == 0x20 || v == 0x85 || v == 0xA0 || v == 0x1680 || 0x2000 <= v <= 0x200A
    || v == 0x2028 || v == 0x2029 || v == 0x202F || v == 0x205F || v == 0x3000
  }

  /** The character at the head of `s` is white space. */
  predicate SpaceAhead(s: string) {
    Utf8.Decode(s).Some? && IsSpaceRune(Utf8.Decode(s).value.value)
  }

  /** The length of the word at the head of `s`. */
  function WordLength(s: string): (n: nat)
    ensures n <= |s|
    ensures s != [] && !SpaceAhead(s) ==> n > 0
    decreases |s|
  {
    if s == [] || SpaceAhead(s) then 0
    else Json.HeadSize(s) + WordLength(s[Json.HeadSize(s)..])
  }

  /** strings.Fields. */
  function Fields(s: string): seq<string>
    decreases |s|
  {
    if s == [] then []
    else if SpaceAhead(s) then Fields(s[Json.HeadSize(s)..])
    else [s[..WordLength(s)]] + Fields(s[WordLength(s)..])
  }

  /** The first occurrences of the elements of `xs`. */
  function FirstOf(xs: seq<string>): (r: seq<string>)
    ensures Distinct(r) && Elements(r) == Elements(xs)
    ensures Distinct(xs) ==> r == xs
  {
    if xs == [] then []
    else
      var front, last := xs[..|xs| - 1], xs[|xs| - 1];
      var r := FirstOf(front);
      assert xs == front + [last];
      assert Elements(xs) == Elements(front) + {last};
      if last in front then
        assert last in Elements(front);
        r
      else
        assert last !in r by { assert last !in Elements(r); }
        assert Elements(r + [last]) == Elements(r) + {last};
        r + [last]
  }

  function Canonical(scope: string): seq<string> {
    FirstOf(Fields(scope))
  }

  method SplitScope(scope: string) returns (out: seq<string>)
    ensures out == Canonical(scope)
  {
    var seen: set<string> := {};
    var fields := Fields(scope);
    out := [];
    for i := 0 to |fields|
      invariant out == FirstOf(fields[..i]) && seen == Elements(fields[..i])
    {
      var s := fields[i];
      assert fields[..i + 1] == fields[..i] + [s] && fields[..i + 1][..i] == fields[..i];
      assert Elements(fields[..i + 1]) == Elements(fields[..i]) + {s};
      if s !in seen {
        seen := seen + {s};
        out := out + [s];
      }
    }
    assert fields[..|fields|] == fields;
  }

  /** The loop of hasScope. */
  method HasScope(scopes: seq<string>, want: string) returns (r: bool)
    ensures r <==> want in scopes
  {
    for i := 0 to |scopes|
      invariant want !in scopes[..i]
    {
      if scopes[i] == want { return true; }
    }
    return false;
  }

  // ----- words -----

  /** A nonempty text without white space. */
  predicate IsWord(w: string) {
    w != [] && WordLength(w) == |w|
  }

  /** The bytes after the first of a character are continuation bytes. */
  lemma RuneBytes(s: string, i: nat)
    requires Utf8.Decode(s).Some? && 1 <= i < Utf8.Decode(s).value.size
    ensures Utf8.IsCont(s[i])
  {
  }

  /** A prefix that holds the whole first character starts with it too. */
  lemma HeadOfPrefix(s: string, m: nat)
    requires s != [] && Json.HeadSize(s) <= m <= |s|
    ensures Utf8.Decode(s[..m]) == Utf8.Decode(s) && Json.HeadSize(s[..m]) == Json.HeadSize(s)
  {
    hide Utf8.Decode;
    var p := s[..m];
    assert p + s[m..] == s;
    if Utf8.Decode(s).Some? {
      var r := Utf8.Decode(s).value;
      assert s[..r.size] + p[r.size..] == p;
      Json.RuneHead(s, p[r.size..]);
    } else if Utf8.Decode(p).Some? {
      Utf8.DecodePrefix(p, s[m..]);
    }
  }

  /** A text that does not go on within a character does not change the first character of the
      text before it. */
  lemma HeadBefore(s: string, x: string)
    requires s != [] && x != [] && !Utf8.IsCont(x[0])
    ensures Utf8.Decode(s + x) == Utf8.Decode(s) && Json.HeadSize(s + x) == Json.HeadSize(s)
  {
    var t := s + x;
    assert t[..|s|] == s;
    if Utf8.Decode(s).Some? {
      Utf8.DecodePrefix(s, x);
    } else if Utf8.Decode(t).Some? {
      WholeRune(s, x);
      HeadOfPrefix(t, |s|);
    }
  }

  lemma WholeRune(s: string, x: string)
    requires s != [] && x != [] && !Utf8.IsCont(x[0]) && Utf8.Decode(s + x).Some?
    ensures Utf8.Decode(s + x).value.size <= |s|
  {
    var t := s + x;
    assert t[|s|] == x[0];
    if Utf8.Decode(t).value.size > |s| {
      RuneBytes(t, |s|);
    }
  }

  lemma SpaceStarts(x: string)
    requires SpaceAhead(x)
    ensures x != [] && !Utf8.IsCont(x[0])
  {
  }

  lemma {:induction false} WordBeforeSpace(w: string, x: string)
    requires WordLength(w) == |w| && SpaceAhead(x)
    ensures WordLength(w + x) == |w|
    decreases |w|
  {
    SpaceStarts(x);
    hide Utf8.Decode;
    hide IsSpaceRune;
    if w == [] {
      assert w + x == x;
    } else {
      HeadBefore(w, x);
      var n := Json.HeadSize(w);
      assert (w + x)[n..] == w[n..] + x;
      WordBeforeSpace(w[n..], x);
    }
  }

  lemma SpaceIsSpace(rest: string)
    ensures SpaceAhead(" " + rest) && Json.HeadSize(" " + rest) == 1
  {
  }

  /** The word cut from the head of a text is a word. */
  lemma {:induction false} CutIsWord(s: string, m: nat)
    requires m == WordLength(s)
    ensures WordLength(s[..m]) == m
    decreases |s|
  {
    hide Utf8.Decode;
    hide IsSpaceRune;
    if m == 0 {
    } else {
      var n := Json.HeadSize(s);
      HeadOfPrefix(s, m);
      assert s[..m][n..] == s[n..][..m - n];
      CutIsWord(s[n..], m - n);
    }
  }

  lemma {:induction false} FieldsAreWords(s: string)
    ensures forall w :: w in Fields(s) ==> IsWord(w)
    decreases |s|
  {
    hide SpaceAhead;
    if s == [] {
    } else {
      if SpaceAhead(s) {
        FieldsAreWords(s[Json.HeadSize(s)..]);
      } else {
        CutIsWord(s, WordLength(s));
        FieldsAreWords(s[WordLength(s)..]);
      }
    }
  }

  predicate Words(ws: seq<string>) {
    forall w :: w in ws ==> IsWord(w)
  }

  /** Splitting inverts joining with single spaces. */
  lemma {:induction false} FieldsOfJoin(ws: seq<string>)
    requires Words(ws)
    ensures Fields(Join(ws, " ")) == ws
  {
    hide SpaceAhead;
    if |ws| == 1 {
      OneField(ws[0]);
    } else if ws != [] {
      hide Fields;
      hide IsWord;
      var w, rest := ws[0], Join(ws[1..], " ");
      FieldsOfJoin(ws[1..]);
      JoinStep(ws);
      hide Join;
      SpaceIsSpace(rest);
      FirstField(w, " " + rest);
      SpaceSkipped(" " + rest);
      assert (" " + rest)[1..] == rest;
      assert ws == [w] + ws[1..];
    }
  }

  lemma JoinStep(ws: seq<string>)
    requires |ws| > 1
    ensures Join(ws, " ") == ws[0] + (" " + Join(ws[1..], " "))
  {
  }

  lemma OneField(w: string)
    requires IsWord(w)
    ensures Fields(w) == [w]
  {
    assert w[..|w|] == w && w[|w|..] == [];
  }

  /** A word ends at white space. */
  lemma FirstField(w: string, x: string)
    requires IsWord(w) && SpaceAhead(x)
    ensures Fields(w + x) == [w] + Fields(x)
  {
    hide Utf8.Decode;
    hide IsSpaceRune;
    WordBeforeSpace(w, x);
    SpaceStarts(x);
    HeadBefore(w, x);
    assert (w + x)[..|w|] == w && (w + x)[|w|..] == x;
  }

  /** White space before a text is skipped. */
  lemma SpaceSkipped(x: string)
    requires SpaceAhead(x)
    ensures x != [] && Fields(x) == Fields(x[Json.HeadSize(x)..])
  {
  }

  /** Splitting a scope is the identity on joined canonical scopes, so what it returns is
      restored exactly by joining and splitting. */
  lemma SplitJoin(scope: string)
    ensures var s := Canonical(scope);
            Distinct(s) && Words(s) && Canonical(Join(s, " ")) == s
  {
    var s := Canonical(scope);
    FieldsAreWords(scope);
    forall w | w in s ensures IsWord(w) {
      assert w in Elements(s);
    }
    FieldsOfJoin(s);
  }

  // ----- white space and words -----

  /** The characters with the Unicode property White_Space. */
  const WHITE_SPACE: set<int> :=
    {0x9, 0xA, 0xB, 0xC, 0xD, 0x20, 0x85, 0xA0, 0x1680, 0x2000, 0x2001, 0x2002, 0x2003, 0x2004, 0x2005, 0x2006, 0x2007,
     0x2008, 0x2009, 0x200A, 0x2028, 0x2029, 0x202F, 0x205F, 0x3000}

  lemma SpaceRunes(v: int)
    ensures IsSpaceRune(v) <==> v in WHITE_SPACE
  {
  }

  lemma RuneAhead(v: int, rest: string)
    requires Utf8.IsScalarValue(v)
    ensures SpaceAhead(Utf8.Encode(v) + rest) <==> v in WHITE_SPACE
    ensures Json.HeadSize(Utf8.Encode(v) + rest) == |Utf8.Encode(v)|
  {
    hide Utf8.Encode;
    hide Utf8.Decode;
    hide IsSpaceRune;
    Utf8.DecodeEncode(v, rest);
    SpaceRunes(v);
  }

  /** Every white space character separates: the word before it is a field, and the fields of the
      rest follow. */
  lemma FieldsApart(w: string, v: int, rest: string)
    requires IsWord(w) && Utf8.IsScalarValue(v) && v in WHITE_SPACE
    ensures Fields(Utf8.Encode(v) + rest) == Fields(rest)
    ensures Fields(w + (Utf8.Encode(v) + rest)) == [w] + Fields(rest)
  {
    hide Utf8.Encode;
    hide SpaceAhead;
    hide Fields;
    hide IsWord;
    var x := Utf8.Encode(v) + rest;
    RuneAhead(v, rest);
    FirstField(w, x);
    SpaceSkipped(x);
    assert x[|Utf8.Encode(v)|..] == rest;
  }

  /** No other character does: words grow by any character that is not white space. */
  lemma WordGrows(v: int, w: string)
    requires Utf8.IsScalarValue(v) && v !in WHITE_SPACE && (w == [] || IsWord(w))
    ensures IsWord(Utf8.Encode(v) + w) && Fields(Utf8.Encode(v) + w) == [Utf8.Encode(v) + w]
  {
    hide Utf8.Encode;
    hide SpaceAhead;
    RuneAhead(v, w);
    var x := Utf8.Encode(v) + w;
    assert x[|Utf8.Encode(v)|..] == w;
    hide Fields;
    OneField(x);
  }

  // ----- first occurrences -----

  /** The position of the first `x`. */
  function First(ws: seq<string>, x: string): (i: nat)
    requires x in ws
    ensures i < |ws| && ws[i] == x && forall j :: 0 <= j < i ==> ws[j] != x
  {
    if ws[0] == x then 0 else 1 + First(ws[1..], x)
  }

  lemma FirstIs(ws: seq<string>, x: string, i: nat)
    requires i < |ws| && ws[i] == x && forall j :: 0 <= j < i ==> ws[j] != x
    ensures x in ws && First(ws, x) == i
  {
  }

  lemma FirstMore(front: seq<string>, last: string, x: string)
    requires x in front + [last]
    ensures First(front + [last], x) == if x in front then First(front, x) else |front|
  {
    var ws := front + [last];
    if x in front {
      FirstIs(ws, x, First(front, x));
    } else {
      FirstIs(ws, x, |front|);
    }
  }

  /** Scopes keep the order in which they first occur, however often they are repeated. */
  lemma {:induction false} FirstOrder(ws: seq<string>, x: string, y: string)
    requires x in ws && y in ws
    ensures x in FirstOf(ws) && y in FirstOf(ws)
    ensures First(FirstOf(ws), x) < First(FirstOf(ws), y) <==> First(ws, x) < First(ws, y)
  {
    var front, last := ws[..|ws| - 1], ws[|ws| - 1];
    assert ws == front + [last];
    var r := FirstOf(front);
    forall z ensures z in r <==> z in front {
      assert z in r <==> z in Elements(r);
      assert z in front <==> z in Elements(front);
    }
    assert FirstOf(ws) == if last in front then r else r + [last];
    hide FirstOf;
    hide First;
    FirstMore(front, last, x);
    FirstMore(front, last, y);
    if last !in front {
      FirstMore(r, last, x);
      FirstMore(r, last, y);
    }
    if x in front && y in front {
      FirstOrder(front, x, y);
    }
  }

  // ----- through JSON -----

  lemma HeadOfClean(s: string, x: string)
    requires s != []
    ensures var c := Json.HeadClean(s) + x;
            && c != [] && Json.HeadSize(c) == |Json.HeadClean(s)| && (SpaceAhead(c) <==> SpaceAhead(s))
  {
    hide Utf8.Encode;
    if Utf8.Decode(s).Some? {
      Json.RuneHead(s, x);
    } else {
      Utf8.DecodeEncode(0xFFFD, x);
    }
  }

  /** Cleaning works word by word. */
  lemma {:induction false} CleanWord(s: string)
    ensures var w := WordLength(s);
            && Json.Clean(s) == Json.Clean(s[..w]) + Json.Clean(s[w..])
            && WordLength(Json.Clean(s)) == |Json.Clean(s[..w])|
    decreases |s|
  {
    hide Utf8.Decode;
    hide SpaceAhead;
    hide Json.HeadClean;
    if s == [] {
    } else {
      var n := Json.HeadSize(s);
      HeadOfClean(s, Json.Clean(s[n..]));
      if SpaceAhead(s) {
        assert s[..0] == [] && s[0..] == s;
      } else {
        CleanWord(s[n..]);
        var w := WordLength(s);
        assert s[n..][..w - n] == s[..w][n..] && s[n..][w - n..] == s[w..];
        CleanHead(s, w);
        CleanLength(s, Json.HeadClean(s), Json.Clean(s[n..]));
        Regroup(Json.HeadClean(s), Json.Clean(s[..w][n..]), Json.Clean(s[w..]));
      }
    }
  }

  lemma Regroup(a: string, b: string, c: string)
    ensures a + (b + c) == (a + b) + c
  {
  }

  lemma CleanLength(s: string, h: string, rest: string)
    requires s != [] && h == Json.HeadClean(s) && !SpaceAhead(s)
    ensures WordLength(h + rest) == |h| + WordLength(rest)
  {
    HeadOfClean(s, rest);
    assert (h + rest)[|h|..] == rest;
  }

  lemma CleanHead(s: string, m: nat)
    requires s != [] && Json.HeadSize(s) <= m <= |s|
    ensures Json.Clean(s[..m]) == Json.HeadClean(s) + Json.Clean(s[..m][Json.HeadSize(s)..])
  {
    HeadOfPrefix(s, m);
  }

  function CleanWords(ws: seq<string>): (r: seq<string>)
    ensures |r| == |ws| && forall i :: 0 <= i < |ws| ==> r[i] == Json.Clean(ws[i])
  {
    if ws == [] then [] else [Json.Clean(ws[0])] + CleanWords(ws[1..])
  }

  lemma {:induction false} CleanFields(s: string)
    ensures Fields(Json.Clean(s)) == CleanWords(Fields(s))
    decreases |s|
  {
    hide Utf8.Decode;
    hide SpaceAhead;
    hide Json.HeadClean;
    if s == [] {
    } else {
      var c, n := Json.Clean(s), Json.HeadSize(s);
      HeadOfClean(s, Json.Clean(s[n..]));
      if SpaceAhead(s) {
        CleanFields(s[n..]);
        assert c[|Json.HeadClean(s)|..] == Json.Clean(s[n..]);
      } else {
        var w := WordLength(s);
        CleanWord(s);
        CleanFields(s[w..]);
        var cw := Json.Clean(s[..w]);
        assert c[..|cw|] == cw && c[|cw|..] == Json.Clean(s[w..]);
      }
    }
  }

  /** An ASCII scope is granted after joining, JSON and splitting exactly when it was
      granted before, whatever other bytes the scopes hold. */
  lemma ScopeSurvives(scopes: seq<string>, want: string)
    requires Words(scopes) && Utf8.Ascii(want)
    ensures want in Canonical(Json.Clean(Join(scopes, " "))) <==> want in scopes
  {
    var back := Canonical(Json.Clean(Join(scopes, " ")));
    FieldsOfJoin(scopes);
    CleanFields(Join(scopes, " "));
    var cs := CleanWords(scopes);
    assert Elements(back) == Elements(cs);
    if want in scopes {
      var i :| 0 <= i < |scopes| && scopes[i] == want;
      Json.CleanToAscii(want, want);
      assert cs[i] == want;
      assert want in Elements(back);
    }
    if want in back {
      assert want in Elements(cs);
      var i :| 0 <= i < |cs| && cs[i] == want;
      Json.CleanToAscii(scopes[i], want);
    }
  }
}
