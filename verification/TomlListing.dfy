/** Every config-shaped tree has a statement listing, and running the listing rebuilds
    exactly that tree. */
module TomlListing {
  import opened Prelude
  import opened Order
  import opened TomlTree
  import opened TomlEffects
  import opened TomlRuns
  import opened TomlSections

  /** A table whose entries are values or nonempty tables of the same kind: what dotted
      keys can write. */
  predicate IsBody(t: Tree) {
    t.Map? && forall k :: k in t.entries ==>
      NoTables(t.entries[k]) || (IsBody(t.entries[k]) && t.entries[k] != NO_ENTRIES)
  }

  /** A value at the top of a document: a plain value, a table, or an array of tables. */
  predicate IsSection(t: Tree) {
    NoTables(t) || IsBody(t) || (t.Arr? && t.elems != [] && AllBodies(t.elems))
  }

  predicate AllBodies(xs: seq<Tree>) {
    forall x :: x in xs ==> IsBody(x)
  }

  /** The trees a persona file denotes: root keys, tables, and arrays of tables. */
  predicate ConfigShaped(t: Tree) {
    t.Map? && forall k :: k in t.entries ==> IsSection(t.entries[k])
  }

  // ----- dotted listings of one table -----

  function Under(k: string, kvs: seq<Pair>): seq<Pair> {
    seq(|kvs|, i requires 0 <= i < |kvs| => Pair([k] + kvs[i].path, kvs[i].v))
  }

  /** The dotted key/value pairs of a table, in key order. */
  ghost function Flat(t: Tree): seq<Pair>
    requires t.Map?
    decreases t, 1, 0
  {
    FlatKeys(t, SortedKeys(t.entries.Keys))
  }

  ghost function FlatKeys(t: Tree, ks: seq<string>): seq<Pair>
    requires t.Map? && forall i :: 0 <= i < |ks| ==> ks[i] in t.entries
    decreases t, 0, |ks|
  {
    if ks == [] then []
    else
      var v := t.entries[ks[0]];
      FlatEntry(ks[0], v) + FlatKeys(t, ks[1..])
  }

  ghost function FlatEntry(k: string, v: Tree): seq<Pair>
    decreases v, 2, 0
  {
    if v.Map? then Under(k, Flat(v)) else [Pair([k], v)]
  }

  /** The pair lists a value of the table `t`, under one of the keys `ks`. */
  predicate Lists(t: Tree, ks: set<string>, x: Pair) {
    ProperPair(x) && x.path[0] in ks && Get(t, Keys(x.path)) == Some(x.v)
  }

  lemma {:induction false} UnderLists(t: Tree, k: string, x: Pair, ks: set<string>)
    requires t.Map? && k in t.entries && t.entries[k].Map? && Lists(t.entries[k], ks, x)
    ensures Lists(t, {k}, Pair([k] + x.path, x.v))
  {
    KeysAppend([k], x.path);
    assert Keys([k]) == [Key(k)];
    GetAppend(t, [Key(k)], Keys(x.path));
    GetKey(t, k);
  }

  lemma UnderPrefixFree(k: string, kvs: seq<Pair>)
    requires PrefixFree(kvs)
    ensures PrefixFree(Under(k, kvs))
  {
    forall i, j | 0 <= i < j < |kvs| ensures !Comparable([k] + kvs[i].path, [k] + kvs[j].path) {
      PrefixTail([k] + kvs[i].path, [k] + kvs[j].path);
      PrefixTail([k] + kvs[j].path, [k] + kvs[i].path);
      assert ([k] + kvs[i].path)[1..] == kvs[i].path && ([k] + kvs[j].path)[1..] == kvs[j].path;
    }
  }

  lemma DisjointPrefixFree(a: seq<Pair>, b: seq<Pair>)
    requires ProperPairs(a) && ProperPairs(b) && PrefixFree(a) && PrefixFree(b)
    requires forall i, j :: 0 <= i < |a| && 0 <= j < |b| ==> a[i].path[0] != b[j].path[0]
    ensures PrefixFree(a + b)
  {
    var c := a + b;
    forall i, j | 0 <= i < j < |c| ensures !Comparable(c[i].path, c[j].path) {
      if j < |a| {
      } else if i >= |a| {
        assert c[i] == b[i - |a|] && c[j] == b[j - |a|];
      } else {
        assert c[i] == a[i] && c[j] == b[j - |a|];
        PrefixTail(c[i].path, c[j].path);
        PrefixTail(c[j].path, c[i].path);
      }
    }
  }

  /** The listing of a body lists its values only, and no key of it extends another. */
  lemma {:induction false} FlatSound(t: Tree, ks: seq<string>)
    requires IsBody(t) && Distinct(ks) && forall i :: 0 <= i < |ks| ==> ks[i] in t.entries
    ensures forall x :: x in FlatKeys(t, ks) ==> Lists(t, Elements(ks), x)
    ensures PrefixFree(FlatKeys(t, ks))
    decreases t, 0, |ks|
  {
    if ks == [] {
    } else {
      var k := ks[0];
      var first, rest := FlatEntry(k, t.entries[k]), FlatKeys(t, ks[1..]);
      EntrySound(t, k);
      FlatSound(t, ks[1..]);
      assert ks == [k] + ks[1..];
      assert forall i :: 0 <= i < |first| ==> first[i] in first;
      assert forall i :: 0 <= i < |rest| ==> rest[i] in rest;
      assert k !in Elements(ks[1..]);
      DisjointPrefixFree(first, rest);
    }
  }

  lemma {:induction false} EntrySound(t: Tree, k: string)
    requires IsBody(t) && k in t.entries
    ensures forall x :: x in FlatEntry(k, t.entries[k]) ==> Lists(t, {k}, x)
    ensures PrefixFree(FlatEntry(k, t.entries[k]))
    decreases t.entries[k], 1, 0
  {
    var v := t.entries[k];
    if v.Map? {
      var s := SortedKeys(v.entries.Keys);
      AscendingDistinct(s);
      KeysPresent(v.entries.Keys);
      FlatSound(v, s);
      UnderPrefixFree(k, Flat(v));
      forall x | x in Under(k, Flat(v)) ensures Lists(t, {k}, x) {
        var i :| 0 <= i < |Flat(v)| && Under(k, Flat(v))[i] == x;
        assert Flat(v)[i] in Flat(v);
        UnderLists(t, k, Flat(v)[i], Elements(s));
      }
    } else {
      GetKey(t, k);
      assert Keys([k]) == [Key(k)];
    }
  }

  lemma KeysPresent(s: set<string>)
    ensures forall i :: 0 <= i < |SortedKeys(s)| ==> SortedKeys(s)[i] in s
  {
    forall i | 0 <= i < |SortedKeys(s)| ensures SortedKeys(s)[i] in s {
      assert SortedKeys(s)[i] in Elements(SortedKeys(s));
    }
  }

  /** A position the listing accounts for: at or below a listed key, or above one. */
  ghost predicate Covered(kvs: seq<Pair>, r: Path) {
    exists x :: x in kvs && (IsPrefix(Keys(x.path), r) || IsPrefix(r, Keys(x.path)))
  }

  /** The listing of a body accounts for every position of the table. */
  lemma {:induction false} FlatComplete(t: Tree, ks: seq<string>, r: Path)
    requires IsBody(t) && forall i :: 0 <= i < |ks| ==> ks[i] in t.entries
    requires r != [] && r[0].Key? && r[0].k in ks && ShapeAt(t, r) != Absent
    ensures Covered(FlatKeys(t, ks), r)
    decreases t, 0, |ks|
  {
    var k := ks[0];
    var v := t.entries[k];
    if r[0].k != k {
      FlatComplete(t, ks[1..], r);
      var x :| x in FlatKeys(t, ks[1..]) && (IsPrefix(Keys(x.path), r) || IsPrefix(r, Keys(x.path)));
      assert x in FlatKeys(t, ks);
    } else if v.Map? {
      var s := SortedKeys(v.entries.Keys);
      KeysPresent(v.entries.Keys);
      BodyCovered(v, if r[1..] != [] then r[1..] else [Key(s[0])]) by {
        if r[1..] == [] { FirstKey(v); }
      }
      var q := if r[1..] != [] then r[1..] else [Key(s[0])];
      var x :| x in Flat(v) && (IsPrefix(Keys(x.path), q) || IsPrefix(q, Keys(x.path)));
      var y := Pair([k] + x.path, x.v);
      var i :| 0 <= i < |Flat(v)| && Flat(v)[i] == x;
      assert Under(k, Flat(v))[i] == y;
      assert y in FlatKeys(t, ks);
      KeysAppend([k], x.path);
      assert Keys(y.path)[0] == r[0] && Keys(y.path)[1..] == Keys(x.path);
      PrefixTail(Keys(y.path), r);
      PrefixTail(r, Keys(y.path));
    } else {
      assert Pair([k], v) in FlatKeys(t, ks);
      assert Keys([k]) == [r[0]] == r[..1];
    }
  }

  lemma FirstKey(v: Tree)
    requires v.Map? && v != NO_ENTRIES
    ensures var s := SortedKeys(v.entries.Keys);
            s != [] && s[0] in v.entries && ShapeAt(v, [Key(s[0])]) != Absent
  {
    var s := SortedKeys(v.entries.Keys);
    assert v.entries.Keys != {};
    NoElements(s);
    assert s[0] in Elements(s);
    GetKey(v, s[0]);
  }

  lemma BodyCovered(v: Tree, r: Path)
    requires IsBody(v) && r != [] && ShapeAt(v, r) != Absent
    ensures Covered(Flat(v), r)
    decreases v, 1, 0
  {
    var s := SortedKeys(v.entries.Keys);
    KeysPresent(v.entries.Keys);
    assert r[0].k in Elements(s);
    FlatComplete(v, s, r);
  }

  lemma FlatProper(b: Tree)
    requires IsBody(b)
    ensures ProperPairs(Flat(b)) && PrefixFree(Flat(b))
    ensures forall x :: x in Flat(b) ==> Get(b, Keys(x.path)) == Some(x.v)
  {
    var s := SortedKeys(b.entries.Keys);
    AscendingDistinct(s);
    KeysPresent(b.entries.Keys);
    FlatSound(b, s);
    assert forall i :: 0 <= i < |Flat(b)| ==> Flat(b)[i] in Flat(b);
  }

  /** A body's listing puts back exactly the body. */
  lemma FlatShape(b: Tree, r: Path)
    requires IsBody(b)
    ensures KvShape(Flat(b), r) == ShapeAt(b, r)
  {
    hide Flat;
    var kvs := Flat(b);
    FlatProper(b);
    hide IsBody;
    if j :| 0 <= j < |kvs| && IsPrefix(Keys(kvs[j].path), r) {
      KvShapeAtKey(kvs, j, r);
      assert kvs[j] in kvs;
      var p := Keys(kvs[j].path);
      assert r == p + r[|p|..];
      GetAppend(b, p, r[|p|..]);
    } else {
      KvShapeElsewhere(kvs, r);
      if r != [] {
        if j :| 0 <= j < |kvs| && IsPrefix(r, Keys(kvs[j].path)) {
          assert kvs[j] in kvs;
          NotBelow(r, Keys(kvs[j].path));
          AboveAValue(b, r, kvs[j].path);
        } else if ShapeAt(b, r) != Absent {
          NotCovered(b, r);
        }
      }
    }
  }

  lemma NotBelow(r: Path, p: Path)
    ensures IsPrefix(r, p) && !IsPrefix(p, r) ==> |r| < |p|
  {
    if IsPrefix(r, p) && |r| == |p| { assert r == p; }
  }

  lemma NotCovered(b: Tree, r: Path)
    requires IsBody(b) && r != [] && ShapeAt(b, r) != Absent
    ensures exists j :: 0 <= j < |Flat(b)| &&
              (IsPrefix(Keys(Flat(b)[j].path), r) || IsPrefix(r, Keys(Flat(b)[j].path)))
  {
    BodyCovered(b, r);
    var x :| x in Flat(b) && (IsPrefix(Keys(x.path), r) || IsPrefix(r, Keys(x.path)));
    var i :| 0 <= i < |Flat(b)| && Flat(b)[i] == x;
  }

  lemma AboveAValue(t: Tree, r: Path, path: seq<string>)
    requires IsPrefix(r, Keys(path)) && |r| < |path| && Get(t, Keys(path)).Some?
    ensures ShapeAt(t, r) == Table
  {
    var rest := Keys(path)[|r|..];
    assert Keys(path) == r + rest;
    GetAppend(t, r, rest);
    assert rest[0].Key?;
  }

  // ----- a block in an empty table -----

  /** The tree with `x` in place of what is at `q`. */
  function SetAt(t: Tree, q: Path, x: Tree): Tree
    requires Get(t, q).Some?
  {
    if q == [] then x
    else match q[0]
      case Key(j) => Map(t.entries[j := SetAt(t.entries[j], q[1..], x)])
      case Idx(i) => Arr(t.elems[i := SetAt(t.elems[i], q[1..], x)])
  }

  lemma {:induction false} SetAtShape(t: Tree, q: Path, x: Tree, r: Path)
    requires Get(t, q).Some?
    requires ShapeOf(Get(t, q).value) == ShapeOf(x)
    ensures ShapeAt(SetAt(t, q, x), r) == if IsPrefix(q, r) then ShapeAt(x, r[|q|..]) else ShapeAt(t, r)
  {
    if q == [] {
      assert r[0..] == r;
    } else if r != [] {
      PrefixTail(q, r);
      if r[0] == q[0] {
        match q[0] {
          case Key(j) => SetAtShape(t.entries[j], q[1..], x, r[1..]);
          case Idx(i) => SetAtShape(t.elems[i], q[1..], x, r[1..]);
        }
        assert IsPrefix(q, r) ==> r[1..][|q[1..]|..] == r[|q|..];
      }
    }
  }

  /** Running a body's listing in an empty current table makes that table the body. */
  lemma BodyExec(d: Doc, b: Tree)
    requires Ready(d) && Get(d.tree, d.cur) == Some(NO_ENTRIES) && IsBody(b)
    ensures ProperPairs(Flat(b))
    ensures Exec(d, KvStmts(Flat(b))) == Ok(d.(tree := SetAt(d.tree, d.cur, b)))
  {
    FlatProper(b);
    KvExec(d, Flat(b), []);
    var d' := Exec(d, KvStmts(Flat(b))).value;
    forall r ensures ShapeAt(d'.tree, r) == ShapeAt(SetAt(d.tree, d.cur, b), r) {
      KvExec(d, Flat(b), r);
      SetAtShape(d.tree, d.cur, b, r);
      if IsPrefix(d.cur, r) { FlatShape(b, r[|d.cur|..]); }
    }
    Extensional(d'.tree, SetAt(d.tree, d.cur, b));
  }

  // ----- documents -----

  ghost function BodyStmts(b: Tree): (ss: seq<Stmt>)
    requires IsBody(b)
    ensures AllProper(ss)
  {
    FlatProper(b);
    KvStmts(Flat(b))
  }

  /** One [[k]] section per element. */
  ghost function ArrayStmts(k: string, xs: seq<Tree>): (ss: seq<Stmt>)
    requires AllBodies(xs)
    ensures AllProper(ss)
  {
    if xs == [] then []
    else ArrayStmts(k, xs[..|xs| - 1]) + ([ArrayHeader([k])] + BodyStmts(xs[|xs| - 1]))
  }

  ghost function SectionStmts(k: string, v: Tree): (ss: seq<Stmt>)
    requires IsSection(v) && !NoTables(v)
    ensures AllProper(ss)
  {
    if v.Map? then [Header([k])] + BodyStmts(v) else ArrayStmts(k, v.elems)
  }

  ghost function SectionsStmts(t: Tree, ks: seq<string>): (ss: seq<Stmt>)
    requires ConfigShaped(t) && SectionsOf(t, ks)
    ensures AllProper(ss)
  {
    if ks == [] then [] else SectionStmts(ks[0], t.entries[ks[0]]) + SectionsStmts(t, ks[1..])
  }

  /** The plain values at the root. */
  function RootBody(t: Tree): Tree
    requires t.Map?
  {
    Map(map k | k in t.entries && NoTables(t.entries[k]) :: t.entries[k])
  }

  ghost function SectionKeys(t: Tree): (ks: seq<string>)
    requires t.Map?
    ensures SectionsOf(t, ks) && Elements(ks) == t.entries.Keys - RootBody(t).entries.Keys
  {
    var s := t.entries.Keys - RootBody(t).entries.Keys;
    AscendingDistinct(SortedKeys(s));
    DistinctNoRepeat(SortedKeys(s));
    assert forall k :: k in SortedKeys(s) ==> k in Elements(SortedKeys(s));
    SortedKeys(s)
  }

  /** The statements of a config-shaped document: root keys, then a section per table and
      per element of an array of tables, with dotted keys below. */
  ghost function Listing(t: Tree): (ss: seq<Stmt>)
    requires ConfigShaped(t)
    ensures AllProper(ss)
  {
    RootIsBody(t);
    BodyStmts(RootBody(t)) + SectionsStmts(t, SectionKeys(t))
  }

  lemma SetAtTop(m: map<string, Tree>, k: string, b: Tree)
    requires k in m
    ensures Get(Map(m), [Key(k)]) == Some(m[k]) && SetAt(Map(m), [Key(k)], b) == Map(m[k := b])
  {
    assert [Key(k)][1..] == [];
  }

  lemma SetAtElement(m: map<string, Tree>, k: string, xs: seq<Tree>, b: Tree)
    requires k in m && m[k] == Arr(xs + [NO_ENTRIES])
    ensures Get(Map(m), [Key(k), Idx(|xs|)]) == Some(NO_ENTRIES)
    ensures SetAt(Map(m), [Key(k), Idx(|xs|)], b) == Map(m[k := Arr(xs + [b])])
  {
    var q := [Key(k), Idx(|xs|)];
    assert q[1..] == [Idx(|xs|)] && [Idx(|xs|)][1..] == [];
    assert (xs + [NO_ENTRIES])[|xs| := b] == xs + [b];
    assert Get(Map(m), q) == Get(m[k], [Idx(|xs|)]);
    assert SetAt(m[k], [Idx(|xs|)], b) == Arr(xs + [b]);
  }

  /** A document whose current table no longer matters. */
  predicate Holds(r: Result<Doc, Kind>, m: map<string, Tree>, explicit: set<string>) {
    r.Ok? && r.value.tree == Map(m) && r.value.explicit == explicit
  }

  /** A header and the body below it. */
  lemma HeaderAndBody(d: Doc, h: Stmt, d1: Doc, b: Tree)
    requires Ready(d) && Proper(h) && Apply(d, h) == Ok(d1) && IsBody(b)
    requires Get(d1.tree, d1.cur) == Some(NO_ENTRIES)
    ensures Exec(d, [h] + BodyStmts(b)) == Ok(d1.(tree := SetAt(d1.tree, d1.cur, b)))
  {
    ApplyReady(d, h);
    SingleStmt(d, h);
    ExecAppend(d, [h], BodyStmts(b));
    BodyExec(d1, b);
  }

  lemma {:induction false} ArrayExec(m: map<string, Tree>, cur: Path, explicit: set<string>, k: string, xs: seq<Tree>)
    requires IsTable(Map(m), cur) && k !in m && AllBodies(xs)
    ensures Holds(Exec(Doc(Map(m), cur, explicit), ArrayStmts(k, xs)),
                  if xs == [] then m else m[k := Arr(xs)], explicit)
  {
    if xs == [] {
    } else {
      var init, last := xs[..|xs| - 1], xs[|xs| - 1];
      var m1 := if init == [] then m else m[k := Arr(init)];
      ArrayExec(m, cur, explicit, k, init);
      assert last in xs && forall x :: x in init ==> x in xs;
      ArrayStep(Doc(Map(m), cur, explicit), ArrayStmts(k, init), m1, explicit, k, init, last);
      LastUpdate(m, k, init, xs);
    }
  }

  lemma LastUpdate(m: map<string, Tree>, k: string, init: seq<Tree>, xs: seq<Tree>)
    requires xs != [] && init == xs[..|xs| - 1]
    ensures init + [xs[|xs| - 1]] == xs
    ensures m[k := Arr(init)][k := Arr(xs)] == m[k := Arr(xs)]
  {
  }

  lemma ArrayStep(d: Doc, before: seq<Stmt>, m: map<string, Tree>, explicit: set<string>, k: string, xs: seq<Tree>, b: Tree)
    requires Ready(d) && AllProper(before) && Holds(Exec(d, before), m, explicit)
    requires IsBody(b) && AllBodies(xs) && if k in m then m[k] == Arr(xs) && xs != [] else xs == []
    ensures Holds(Exec(d, before + ([ArrayHeader([k])] + BodyStmts(b))), m[k := Arr(xs + [b])], explicit)
  {
    var d1 := Exec(d, before).value;
    ElementExec(m, d1.cur, explicit, k, xs, b);
    ExecAppend(d, before, [ArrayHeader([k])] + BodyStmts(b));
  }

  lemma ElementExec(m: map<string, Tree>, cur: Path, explicit: set<string>, k: string, xs: seq<Tree>, b: Tree)
    requires IsTable(Map(m), cur) && IsBody(b)
    requires AllBodies(xs) && if k in m then m[k] == Arr(xs) && xs != [] else xs == []
    ensures Holds(Exec(Doc(Map(m), cur, explicit), [ArrayHeader([k])] + BodyStmts(b)), m[k := Arr(xs + [b])], explicit)
  {
    hide OpenArray;
    hide Walk;
    hide Put;
    var m1 := m[k := Arr(xs + [NO_ENTRIES])];
    var d, d1 := Doc(Map(m), cur, explicit), Doc(Map(m1), [Key(k), Idx(|xs|)], explicit);
    assert Apply(d, ArrayHeader([k])) == Ok(d1) by {
      assert xs != [] ==> xs[|xs| - 1] in xs;
      TopArray(m, cur, explicit, k, xs);
    }
    hide Apply;
    hide Exec;
    hide Get;
    hide SetAt;
    hide IsBody;
    hide BodyStmts;
    SetAtElement(m1, k, xs, b);
    assert m1[k := Arr(xs + [b])] == m[k := Arr(xs + [b])];
    HeaderAndBody(d, ArrayHeader([k]), d1, b);
  }

  lemma SectionExec(m: map<string, Tree>, cur: Path, explicit: set<string>, k: string, v: Tree)
    requires IsTable(Map(m), cur) && k !in m && k !in explicit && IsSection(v) && !NoTables(v)
    ensures Holds(Exec(Doc(Map(m), cur, explicit), SectionStmts(k, v)), m[k := v],
                  if v.Map? then explicit + {k} else explicit)
  {
    if v.Map? {
      TableExec(m, cur, explicit, k, v);
    } else {
      ArrayExec(m, cur, explicit, k, v.elems);
    }
  }

  lemma TableExec(m: map<string, Tree>, cur: Path, explicit: set<string>, k: string, b: Tree)
    requires IsTable(Map(m), cur) && k !in m && k !in explicit && IsBody(b)
    ensures Holds(Exec(Doc(Map(m), cur, explicit), [Header([k])] + BodyStmts(b)), m[k := b], explicit + {k})
  {
    hide OpenTable;
    hide Walk;
    hide Put;
    var m1 := m[k := NO_ENTRIES];
    var d1 := Doc(Map(m1), [Key(k)], explicit + {k});
    TopTable(m, cur, explicit, k);
    assert Apply(Doc(Map(m), cur, explicit), Header([k])) == Ok(d1);
    hide Apply;
    hide Exec;
    hide Get;
    hide SetAt;
    hide IsBody;
    hide BodyStmts;
    SetAtTop(m1, k, b);
    HeaderAndBody(Doc(Map(m), cur, explicit), Header([k]), d1, b);
    assert m1[k := b] == m[k := b];
  }

  /** The entries of `t` under the keys `ks`. */
  function Restrict(t: Tree, ks: set<string>): map<string, Tree>
    requires t.Map?
  {
    map k | k in ks && k in t.entries :: t.entries[k]
  }

  lemma RestrictStep(t: Tree, m: map<string, Tree>, ks: seq<string>)
    requires t.Map? && ks != [] && ks[0] in t.entries && ks[0] !in ks[1..]
    ensures m[ks[0] := t.entries[ks[0]]] + Restrict(t, Elements(ks[1..])) == m + Restrict(t, Elements(ks))
  {
    assert ks == [ks[0]] + ks[1..];
  }

  /** Keys of sections, each once. */
  predicate SectionsOf(t: Tree, ks: seq<string>) {
    t.Map? && NoRepeat(ks) && forall k :: k in ks ==> k in t.entries && !NoTables(t.entries[k])
  }

  lemma {:induction false} SectionsExec(t: Tree, m: map<string, Tree>, cur: Path, explicit: set<string>, ks: seq<string>)
    requires ConfigShaped(t) && SectionsOf(t, ks)
    requires IsTable(Map(m), cur) && forall k :: k in ks ==> k !in m && k !in explicit
    ensures var r := Exec(Doc(Map(m), cur, explicit), SectionsStmts(t, ks));
            r.Ok? && r.value.tree == Map(m + Restrict(t, Elements(ks)))
    decreases |ks|
  {
    if ks == [] {
      assert m + Restrict(t, Elements(ks)) == m;
    } else {
      var k, v := ks[0], t.entries[ks[0]];
      var d := Doc(Map(m), cur, explicit);
      SectionExec(m, cur, explicit, k, v);
      ExecAppend(d, SectionStmts(k, v), SectionsStmts(t, ks[1..]));
      var d1 := Exec(d, SectionStmts(k, v)).value;
      assert d1 == Doc(Map(m[k := v]), d1.cur, d1.explicit);
      SectionsExec(t, m[k := v], d1.cur, d1.explicit, ks[1..]);
      RestrictStep(t, m, ks);
    }
  }

  /** Running the listing of a config-shaped tree rebuilds the tree. */
  lemma ListingExec(t: Tree)
    requires ConfigShaped(t)
    ensures Exec(EMPTY, Listing(t)).Ok? && Exec(EMPTY, Listing(t)).value.tree == t
  {
    var b, ks := RootBody(t), SectionKeys(t);
    RootIsBody(t);
    RootExec(b);
    RestSections(t);
    ExecAppend(EMPTY, BodyStmts(b), SectionsStmts(t, ks));
  }

  lemma RestSections(t: Tree)
    requires ConfigShaped(t)
    ensures var r := Exec(Doc(RootBody(t), [], {}), SectionsStmts(t, SectionKeys(t)));
            r.Ok? && r.value.tree == t
  {
    var b, ks := RootBody(t), SectionKeys(t);
    AllEntries(t);
    RootIsBody(t);
    forall k | k in ks ensures k !in b.entries {
      assert k in Elements(ks);
    }
    hide Exec;
    hide SectionsStmts;
    hide ConfigShaped;
    hide RootBody;
    hide SectionKeys;
    SectionsExec(t, b.entries, [], {}, ks);
  }

  /** The root body and the sections make up the tree. */
  lemma AllEntries(t: Tree)
    requires t.Map?
    ensures RootBody(t).entries + Restrict(t, Elements(SectionKeys(t))) == t.entries
    ensures RootBody(t).Map?
  {
    hide NoTables;
    hide SortedKeys;
  }

  lemma RootExec(b: Tree)
    requires IsBody(b)
    ensures Exec(EMPTY, BodyStmts(b)) == Ok(Doc(b, [], {}))
  {
    BodyExec(EMPTY, b);
  }

  lemma RootIsBody(t: Tree)
    requires ConfigShaped(t)
    ensures IsBody(RootBody(t))
  {
  }
}
