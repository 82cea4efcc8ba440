/** Tables as objects that are updated in place, and when a set of them is a faithful,
    unshared image of a tree. */
module TomlHeap {
  import opened Prelude
  import opened TomlTree
  import opened TomlEffects

  /** A Go map[string]any. */
  class Table {
    var m: map<string, Any>

    constructor ()
      ensures m == map[]
    {
      m := map[];
    }
  }

  /** A Go value inside a table. */
  datatype Any = Plain(x: Scalar) | Items(elems: seq<Any>) | Ref(table: Table)

  /** The Go value of a tree without tables. */
  function Embed(t: Tree): Any
    requires NoTables(t)
  {
    match t
    case Leaf(x) => Plain(x)
    case Arr(xs) => Items(seq(|xs|, i requires 0 <= i < |xs| => Embed(xs[i])))
  }

  /** Which table sits at which position of the tree. */
  type Places = map<Path, Table>
  type Contents = map<Path, map<string, Any>>

  /** No table sits at two positions. */
  ghost predicate Unshared(at: Places) {
    forall p, q :: p in at && q in at && p != q ==> at[p] != at[q]
  }

  /** A Go value at position `p` denotes a tree: the same scalars and arrays, and for every
      table in it the object placed there. */
  ghost predicate Denotes(a: Any, t: Tree, p: Path, at: Places)
    decreases t
  {
    match t
    case Leaf(x) => a == Plain(x)
    case Arr(ts) =>
      a.Items? && |a.elems| == |ts| && forall i :: 0 <= i < |ts| ==> Denotes(a.elems[i], ts[i], p + [Idx(i)], at)
    case Map(_) => p in at && a == Ref(at[p])
  }

  ghost predicate Mirrors(m: map<string, Any>, entries: map<string, Tree>, q: Path, at: Places) {
    m.Keys == entries.Keys && forall k :: k in entries ==> Denotes(m[k], entries[k], q + [Key(k)], at)
  }

  /** The placed tables are exactly the tables of the tree, and each holds its entries. */
  ghost predicate Consistent(c: Contents, at: Places, t: Tree) {
    && (forall q :: q in at <==> IsTable(t, q))
    && c.Keys == at.Keys
    && forall q :: q in at ==> Mirrors(c[q], TableAt(t, q), q, at)
  }

  ghost function View(at: Places): (c: Contents)
    reads at.Values
    ensures c.Keys == at.Keys && forall q :: q in at ==> c[q] == at[q].m
  {
    map q | q in at :: at[q].m
  }

  /** The object `root` and everything below it is an image of the tree. */
  ghost predicate Represents(root: Table, t: Tree, at: Places)
    reads at.Values
  {
    [] in at && at[[]] == root && Unshared(at) && Consistent(View(at), at, t)
  }

  /** Places may be added without disturbing what values denote. */
  ghost predicate Extends(at: Places, at': Places) {
    forall p :: p in at ==> p in at' && at'[p] == at[p]
  }

  lemma {:induction false} DenotesMore(a: Any, t: Tree, p: Path, at: Places, at': Places)
    requires Denotes(a, t, p, at) && Extends(at, at')
    ensures Denotes(a, t, p, at')
    decreases t
  {
    if t.Arr? {
      forall i | 0 <= i < |t.elems| ensures Denotes(a.elems[i], t.elems[i], p + [Idx(i)], at') {
        DenotesMore(a.elems[i], t.elems[i], p + [Idx(i)], at, at');
      }
    }
  }

  lemma {:induction false} EmbedDenotes(t: Tree, p: Path, at: Places)
    requires NoTables(t)
    ensures Denotes(Embed(t), t, p, at)
    decreases t
  {
    if t.Arr? {
      forall i | 0 <= i < |t.elems| ensures Denotes(Embed(t).elems[i], t.elems[i], p + [Idx(i)], at) {
        EmbedDenotes(t.elems[i], p + [Idx(i)], at);
      }
    }
  }

  /** A value whose tree changed only inside a table below it denotes the changed tree. */
  lemma {:induction false} DenotesBelow(a: Any, t: Tree, p: Path, q: Path, k: string, v: Tree, at: Places, at': Places)
    requires IsTable(t, q) && Denotes(a, t, p, at) && Extends(at, at')
    ensures Denotes(a, Put(t, q, k, v), p, at')
    decreases t
  {
    if t.Arr? {
      var i := q[0].i;
      var t' := Put(t, q, k, v);
      forall j | 0 <= j < |t'.elems| ensures Denotes(a.elems[j], t'.elems[j], p + [Idx(j)], at') {
        if j == i {
          DenotesBelow(a.elems[i], t.elems[i], p + [Idx(i)], q[1..], k, v, at, at');
        } else {
          DenotesMore(a.elems[j], t.elems[j], p + [Idx(j)], at, at');
        }
      }
    } else {
      assert t.Map?;
    }
  }

  lemma MirrorsMore(m: map<string, Any>, entries: map<string, Tree>, q: Path, at: Places, at': Places)
    requires Mirrors(m, entries, q, at) && Extends(at, at')
    ensures Mirrors(m, entries, q, at')
  {
    forall k | k in entries ensures Denotes(m[k], entries[k], q + [Key(k)], at') {
      DenotesMore(m[k], entries[k], q + [Key(k)], at, at');
    }
  }

  lemma GetPutBelow(t: Tree, q: Path, k: string, v: Tree, r: Path)
    requires q != [] && r != [] && IsTable(t, q)
    ensures Get(t, [q[0]]).Some? && IsTable(Child(t, q[0]), q[1..])
    ensures r[0] == q[0] ==>
              && Get(Put(t, q, k, v), r) == Get(Put(Child(t, q[0]), q[1..], k, v), r[1..])
              && Get(t, r) == Get(Child(t, q[0]), r[1..])
    ensures r[0] != q[0] ==> Get(Put(t, q, k, v), r) == Get(t, r)
  {
    assert [q[0]][1..] == [];
  }

  /** Subtrees after a Put. */
  lemma {:induction false} GetPut(t: Tree, q: Path, k: string, v: Tree, r: Path)
    requires IsTable(t, q)
    ensures IsPrefix(r, q) ==> Get(t, r).Some? && IsTable(Get(t, r).value, q[|r|..])
                               && Get(Put(t, q, k, v), r) == Some(Put(Get(t, r).value, q[|r|..], k, v))
    ensures IsPrefix(q + [Key(k)], r) ==> Get(Put(t, q, k, v), r) == Get(v, r[|q| + 1..])
    ensures !IsPrefix(r, q) && !IsPrefix(q + [Key(k)], r) ==> Get(Put(t, q, k, v), r) == Get(t, r)
    decreases |r|
  {
    if r == [] {
      assert q[0..] == q;
    } else if q == [] {
      assert q + [Key(k)] == [Key(k)];
    } else {
      GetPutBelow(t, q, k, v, r);
      hide Get;
      hide Put;
      hide IsTable;
      assert (q + [Key(k)])[0] == q[0] && (q + [Key(k)])[1..] == q[1..] + [Key(k)];
      PrefixTail(q + [Key(k)], r);
      PrefixTail(r, q);
      TailTail(q, k, r);
      if r[0] == q[0] {
        GetPut(Child(t, q[0]), q[1..], k, v, r[1..]);
        assert IsPrefix(r, q) ==> q[1..][|r[1..]|..] == q[|r|..];
      }
    }
  }

  lemma ProperPrefix(r: Path, q: Path)
    requires IsPrefix(r, q) && r != q
    ensures |r| < |q|
  {
  }

  /** A table other than the one written still mirrors its entries. */
  lemma OtherMirrors(m: map<string, Any>, t: Tree, q: Path, k: string, v: Tree, r: Path, at: Places, at': Places)
    requires IsTable(t, q) && IsTable(t, r) && r != q && Extends(at, at')
    requires Mirrors(m, TableAt(t, r), r, at)
    requires IsPrefix(q + [Key(k)], r) ==> Get(v, r[|q| + 1..]) == Get(t, r)
    ensures IsTable(Put(t, q, k, v), r) && Mirrors(m, TableAt(Put(t, q, k, v), r), r, at')
  {
    hide Get;
    hide Put;
    hide Denotes;
    GetPut(t, q, k, v, r);
    if IsPrefix(r, q) {
      ProperPrefix(r, q);
      StepMirrors(m, Get(t, r).value, r, q[|r|..], k, v, at, at');
    } else {
      MirrorsMore(m, TableAt(t, r), r, at, at');
    }
  }

  /** A table on the way to the one written. */
  lemma StepMirrors(m: map<string, Any>, t: Tree, r: Path, rest: Path, k: string, v: Tree, at: Places, at': Places)
    requires rest != [] && t.Map? && IsTable(t, rest) && Extends(at, at') && Mirrors(m, t.entries, r, at)
    ensures Put(t, rest, k, v).Map? && Mirrors(m, Put(t, rest, k, v).entries, r, at')
  {
    var entries := t.entries;
    var j := rest[0].k;
    var entries' := Put(t, rest, k, v).entries;
    assert entries' == entries[j := Put(entries[j], rest[1..], k, v)];
    forall i | i in entries' ensures Denotes(m[i], entries'[i], r + [Key(i)], at') {
      if i == j {
        DenotesBelow(m[j], entries[j], r + [Key(j)], rest[1..], k, v, at, at');
      } else {
        DenotesMore(m[i], entries[i], r + [Key(i)], at, at');
      }
    }
  }

  /** The written table mirrors its entries when the new value denotes the new subtree. */
  lemma WrittenMirrors(m: map<string, Any>, t: Tree, q: Path, k: string, a: Any, v: Tree, at: Places, at': Places)
    requires IsTable(t, q) && Extends(at, at') && Mirrors(m, TableAt(t, q), q, at)
    requires Denotes(a, v, q + [Key(k)], at')
    ensures IsTable(Put(t, q, k, v), q) && Mirrors(m[k := a], TableAt(Put(t, q, k, v), q), q, at')
  {
    GetPut(t, q, k, v, q);
    var entries := TableAt(t, q);
    assert q[|q|..] == [];
    assert TableAt(Put(t, q, k, v), q) == entries[k := v];
    forall i | i in entries && i != k ensures Denotes(m[i], entries[i], q + [Key(i)], at') {
      DenotesMore(m[i], entries[i], q + [Key(i)], at, at');
    }
  }

  /** One entry was written and, possibly, one empty table placed: the image stays
      consistent. */
  lemma WriteConsistent(c: Contents, at: Places, t: Tree, q: Path, k: string, a: Any, v: Tree, c': Contents, at': Places)
    requires Consistent(c, at, t) && q in at && Extends(at, at')
    requires Denotes(a, v, q + [Key(k)], at')
    requires forall r :: r in at' <==> IsTable(Put(t, q, k, v), r)
    requires c'.Keys == at'.Keys && c'[q] == c[q][k := a]
    requires forall r :: r in at && r != q ==> c'[r] == c[r]
    requires forall r :: r in at' && r !in at ==> c'[r] == map[] && TableAt(Put(t, q, k, v), r) == map[]
    requires forall r :: r in at && IsPrefix(q + [Key(k)], r) ==> Get(v, r[|q| + 1..]) == Get(t, r)
    ensures Consistent(c', at', Put(t, q, k, v))
  {
    var t' := Put(t, q, k, v);
    forall r | r in at' ensures Mirrors(c'[r], TableAt(t', r), r, at') {
      if r == q {
        WrittenMirrors(c[q], t, q, k, a, v, at, at');
      } else if r in at {
        OtherMirrors(c[r], t, q, k, v, r, at, at');
      }
    }
  }

  /** A fresh empty table under a new key. */
  lemma SubtableConsistent(c: Contents, at: Places, t: Tree, q: Path, k: string, n: Table)
    requires Consistent(c, at, t) && q in at && k !in c[q]
    ensures var p := q + [Key(k)];
            && p !in at
            && Consistent(c[q := c[q][k := Ref(n)]][p := map[]], at[p := n], Put(t, q, k, Map(map[])))
  {
    hide Get;
    hide Put;
    hide ShapeAt;
    hide Denotes;
    var p := q + [Key(k)];
    var v := Map(map[]);
    assert k !in TableAt(t, q) by { assert Mirrors(c[q], TableAt(t, q), q, at); }
    FreeKey(t, q, k);
    forall r ensures IsTable(Put(t, q, k, v), r) <==> r == p || r in at {
      SubtableShape(t, q, k, r);
      ShapeIsTable(t, r);
      ShapeIsTable(Put(t, q, k, v), r);
    }
    NoneBelow(c, at, t, p);
    ShapeIsTable(t, p);
    Grow(t, q, k, v);
    assert Denotes(Ref(n), v, p, at[p := n]) by { FreshDenotes(n, p, at); }
    WriteConsistent(c, at, t, q, k, Ref(n), v, c[q := c[q][k := Ref(n)]][p := map[]], at[p := n]);
  }

  lemma FreshDenotes(n: Table, p: Path, at: Places)
    ensures Denotes(Ref(n), Map(map[]), p, at[p := n])
  {
  }

  /** No table of the image lies below a missing position. */
  lemma NoneBelow(c: Contents, at: Places, t: Tree, p: Path)
    requires Consistent(c, at, t) && ShapeAt(t, p) == Absent
    ensures forall r :: r in at ==> !IsPrefix(p, r)
  {
    hide Mirrors;
    forall r | r in at ensures !IsPrefix(p, r) {
      ShapeIsTable(t, r);
      if IsPrefix(p, r) { AbsentBelow(t, p, r); }
    }
  }

  /** A table-free value under a new key. */
  lemma ValueConsistent(c: Contents, at: Places, t: Tree, q: Path, k: string, v: Tree)
    requires Consistent(c, at, t) && q in at && k !in c[q] && NoTables(v)
    ensures Consistent(c[q := c[q][k := Embed(v)]], at, Put(t, q, k, v))
  {
    var p := q + [Key(k)];
    GetAppend(t, q, [Key(k)]);
    GetKey(Map(TableAt(t, q)), k);
    forall r ensures IsTable(Put(t, q, k, v), r) <==> r in at {
      PutShape(t, q, k, v, r);
      ShapeIsTable(t, r);
      ShapeIsTable(Put(t, q, k, v), r);
      if IsPrefix(p, r) {
        AbsentBelow(t, p, r);
        NoTableBelow(v, r[|q| + 1..]);
      }
    }
    NoneBelow(c, at, t, p);
    EmbedDenotes(v, p, at);
    WriteConsistent(c, at, t, q, k, Embed(v), v, c[q := c[q][k := Embed(v)]], at);
  }

  predicate ArrayEntry(c: Contents, t: Tree, q: Path, k: string, xs: seq<Any>, ts: seq<Tree>) {
    && q in c && IsTable(t, q) && |xs| == |ts|
    && if k in c[q] then c[q][k] == Items(xs) && k in TableAt(t, q) && TableAt(t, q)[k] == Arr(ts)
       else k !in TableAt(t, q) && xs == []
  }

  /** A fresh empty table at the end of an array of tables, which may be new. */
  lemma ElementConsistent(c: Contents, at: Places, t: Tree, q: Path, k: string, xs: seq<Any>, ts: seq<Tree>, n: Table)
    requires Consistent(c, at, t) && q in at && ArrayEntry(c, t, q, k, xs, ts)
    ensures var p := q + [Key(k), Idx(|ts|)];
            && p !in at
            && Consistent(c[q := c[q][k := Items(xs + [Ref(n)])]][p := map[]], at[p := n],
                          Put(t, q, k, Arr(ts + [Map(map[])])))
  {
    var a, p := q + [Key(k)], q + [Key(k), Idx(|ts|)];
    var v := Arr(ts + [Map(map[])]);
    AppendedAbsent(t, q, k, ts);
    ShapeIsTable(t, p);
    OldElements(c, at, t, q, k, xs, ts);
    assert a + [Idx(|ts|)] == p;
    AppendedDenotes(xs, ts, a, n, at);
    ElementWrite(c, at, t, q, k, Items(xs + [Ref(n)]), ts, p, n);
  }

  lemma ElementWrite(c: Contents, at: Places, t: Tree, q: Path, k: string, a: Any, ts: seq<Tree>, p: Path, n: Table)
    requires Consistent(c, at, t) && q in at && p == q + [Key(k), Idx(|ts|)] && p !in at
    requires if k in TableAt(t, q) then TableAt(t, q)[k] == Arr(ts) else ts == []
    requires Denotes(a, Arr(ts + [Map(map[])]), q + [Key(k)], at[p := n])
    ensures Consistent(c[q := c[q][k := a]][p := map[]], at[p := n], Put(t, q, k, Arr(ts + [Map(map[])])))
  {
    hide Get;
    hide Put;
    hide Denotes;
    hide Mirrors;
    var v := Arr(ts + [Map(map[])]);
    AppendedTables(t, q, k, ts);
    AppendedTable(t, q, k, ts);
    forall r | r in at && IsPrefix(q + [Key(k)], r) ensures Get(v, r[|q| + 1..]) == Get(t, r) {
      ElementsKept(t, q, k, ts, r);
    }
    WriteConsistent(c, at, t, q, k, a, v, c[q := c[q][k := a]][p := map[]], at[p := n]);
  }

  lemma OldElements(c: Contents, at: Places, t: Tree, q: Path, k: string, xs: seq<Any>, ts: seq<Tree>)
    requires Consistent(c, at, t) && q in at && ArrayEntry(c, t, q, k, xs, ts)
    ensures Denotes(Items(xs), Arr(ts), q + [Key(k)], at)
  {
    if k in c[q] {
      assert Denotes(c[q][k], TableAt(t, q)[k], q + [Key(k)], at);
    }
  }

  lemma AppendedDenotes(xs: seq<Any>, ts: seq<Tree>, a: Path, n: Table, at: Places)
    requires Denotes(Items(xs), Arr(ts), a, at) && a + [Idx(|ts|)] !in at
    ensures Denotes(Items(xs + [Ref(n)]), Arr(ts + [Map(map[])]), a, at[a + [Idx(|ts|)] := n])
  {
    var at' := at[a + [Idx(|ts|)] := n];
    var xs', ts' := xs + [Ref(n)], ts + [Map(map[])];
    forall i | 0 <= i < |ts'| ensures Denotes(xs'[i], ts'[i], a + [Idx(i)], at') {
      if i < |ts| {
        DenotesMore(xs[i], ts[i], a + [Idx(i)], at, at');
      }
    }
  }

  lemma AppendedTables(t: Tree, q: Path, k: string, ts: seq<Tree>)
    requires IsTable(t, q)
    requires if k in TableAt(t, q) then TableAt(t, q)[k] == Arr(ts) else ts == []
    ensures forall r :: IsTable(Put(t, q, k, Arr(ts + [Map(map[])])), r) <==>
              r == q + [Key(k), Idx(|ts|)] || IsTable(t, r)
  {
    var t' := Put(t, q, k, Arr(ts + [Map(map[])]));
    forall r ensures IsTable(t', r) <==> r == q + [Key(k), Idx(|ts|)] || IsTable(t, r) {
      AppendEffect(t, q, k, ts, r);
      ShapeIsTable(t, r);
      ShapeIsTable(t', r);
    }
  }

  lemma AppendedAbsent(t: Tree, q: Path, k: string, ts: seq<Tree>)
    requires IsTable(t, q)
    requires if k in TableAt(t, q) then TableAt(t, q)[k] == Arr(ts) else ts == []
    ensures ShapeAt(t, q + [Key(k), Idx(|ts|)]) == Absent
  {
    var a := q + [Key(k)];
    assert q + [Key(k), Idx(|ts|)] == a + [Idx(|ts|)];
    GetAppend(t, a, [Idx(|ts|)]);
    GetAppend(t, q, [Key(k)]);
    GetKey(Map(TableAt(t, q)), k);
    assert [Idx(|ts|)][1..] == [];
  }

  lemma AppendedTable(t: Tree, q: Path, k: string, ts: seq<Tree>)
    requires IsTable(t, q)
    ensures var t' := Put(t, q, k, Arr(ts + [Map(map[])]));
            Get(t', q + [Key(k), Idx(|ts|)]) == Some(Map(map[]))
  {
    var a, v := q + [Key(k)], Arr(ts + [Map(map[])]);
    assert q + [Key(k), Idx(|ts|)] == a + [Idx(|ts|)];
    Grow(t, q, k, v);
    GetAppend(Put(t, q, k, v), a, [Idx(|ts|)]);
    assert [Idx(|ts|)][1..] == [];
  }

  lemma ElementsKept(t: Tree, q: Path, k: string, ts: seq<Tree>, r: Path)
    requires IsTable(t, q) && IsTable(t, r) && IsPrefix(q + [Key(k)], r)
    requires if k in TableAt(t, q) then TableAt(t, q)[k] == Arr(ts) else ts == []
    ensures Get(Arr(ts + [Map(map[])]), r[|q| + 1..]) == Get(t, r)
  {
    var a, rest := q + [Key(k)], r[|q| + 1..];
    assert r == a + rest;
    GetAppend(t, a, rest);
    GetAppend(t, q, [Key(k)]);
    GetKey(Map(TableAt(t, q)), k);
    assert (ts + [Map(map[])])[rest[0].i] == ts[rest[0].i];
  }

  // ----- facts the parser's methods use -----

  lemma ConsistentReady(c: Contents, at: Places, d: Doc)
    requires Consistent(c, at, d.tree) && [] in at && d.cur in at
    ensures Ready(d)
  {
    assert IsTable(d.tree, []);
  }

  lemma ConsistentTable(c: Contents, at: Places, t: Tree, q: Path)
    requires Consistent(c, at, t) && q in at
    ensures q in c && IsTable(t, q)
  {
  }

  lemma SameContents(at: Places, c: Contents)
    requires c.Keys == at.Keys && forall r :: r in at ==> at[r].m == c[r]
    ensures View(at) == c
  {
  }

  /** An image and its contents. */
  lemma ImageContents(root: Table, at: Places, t: Tree)
    requires Represents(root, t, at)
    ensures [] in at && at[[]] == root && Unshared(at) && Consistent(View(at), at, t)
    ensures forall q :: q in at ==> View(at)[q] == at[q].m
  {
  }

  /** Tables that hold these contents are an image. */
  lemma ImageFrom(root: Table, at: Places, t: Tree, c: Contents)
    requires [] in at && at[[]] == root && Unshared(at) && Consistent(c, at, t)
    requires forall q :: q in at ==> at[q].m == c[q]
    ensures Represents(root, t, at)
  {
    SameContents(at, c);
  }

  /** The image of the empty tree. */
  lemma EmptyImage(root: Table, at: Places)
    requires at == map[[] := root] && root.m == map[]
    ensures Represents(root, EMPTY.tree, at) && Ready(EMPTY) && Uniform(EMPTY.tree)
  {
    forall q ensures q in at <==> IsTable(EMPTY.tree, q) {
      assert q != [] ==> Get(EMPTY.tree, q).None?;
    }
  }

  lemma ImageReady(root: Table, at: Places, d: Doc)
    requires Represents(root, d.tree, at) && d.cur in at
    ensures Ready(d)
  {
    ConsistentReady(View(at), at, d);
  }

  lemma UnsharedMore(at: Places, p: Path, n: Table)
    requires Unshared(at) && n !in at.Values
    ensures Unshared(at[p := n])
  {
  }

  lemma OtherTables(at: Places, q: Path)
    requires Unshared(at) && q in at
    ensures forall r :: r in at && r != q ==> at[r] != at[q]
  {
  }

  /** What the Go value of an entry says about the tree, and where its tables are. */
  predicate EntryMatches(m: map<string, Any>, entries: map<string, Tree>, q: Path, k: string, at: Places) {
    && (k in m <==> k in entries)
    && (k in m ==>
          match entries[k]
          case Leaf(x) => m[k] == Plain(x)
          case Map(_) => q + [Key(k)] in at && m[k] == Ref(at[q + [Key(k)]])
          case Arr(ts) =>
            && m[k].Items? && |m[k].elems| == |ts|
            && (ts != [] ==>
                  var a, l := m[k].elems[|ts| - 1], q + [Key(k)] + [Idx(|ts| - 1)];
                  (ts[|ts| - 1].Map? <==> a.Ref?) && (a.Ref? ==> l in at && a.table == at[l])))
  }

  lemma EntryDenotes(c: Contents, at: Places, t: Tree, q: Path, k: string)
    requires Consistent(c, at, t) && q in at
    ensures q in c && IsTable(t, q) && EntryMatches(c[q], TableAt(t, q), q, k, at)
  {
    if k in c[q] {
      assert Denotes(c[q][k], TableAt(t, q)[k], q + [Key(k)], at);
      match TableAt(t, q)[k] {
        case Arr(ts) =>
          if ts != [] {
            assert Denotes(c[q][k].elems[|ts| - 1], ts[|ts| - 1], q + [Key(k)] + [Idx(|ts| - 1)], at);
          }
        case _ =>
      }
    }
  }

  /** One step of a walk. */
  lemma WalkStep(t: Tree, q: Path, path: seq<string>, crossing: bool)
    requires IsTable(t, q) && path != []
    ensures var m := TableAt(t, q);
            var next := q + [Key(path[0])];
            if path[0] !in m then
              var t' := Put(t, q, path[0], Map(map[]));
              IsTable(t', next) && Walk(t, q, path, crossing) == Walk(t', next, path[1..], crossing)
            else
              match m[path[0]]
              case Map(_) => IsTable(t, next) && Walk(t, q, path, crossing) == Walk(t, next, path[1..], crossing)
              case Arr(xs) =>
                if !crossing then Walk(t, q, path, crossing) == Err(HoldsValue)
                else if xs == [] then Walk(t, q, path, crossing) == Err(EmptyArray)
                else if !xs[|xs| - 1].Map? then Walk(t, q, path, crossing) == Err(ArrayOfValues)
                else
                  var last := next + [Idx(|xs| - 1)];
                  IsTable(t, last) && Walk(t, q, path, crossing) == Walk(t, last, path[1..], crossing)
              case Leaf(_) => Walk(t, q, path, crossing) == Err(HoldsValue)
  {
    Grow(t, q, path[0], Map(map[]));
    GetAppend(t, q, [Key(path[0])]);
    var m := TableAt(t, q);
    var next := q + [Key(path[0])];
    if path[0] in m && m[path[0]].Arr? && m[path[0]].elems != [] {
      GetAppend(t, next, [Idx(|m[path[0]].elems| - 1)]);
    }
  }

  lemma WalkDone(t: Tree, q: Path, crossing: bool)
    requires IsTable(t, q)
    ensures Walk(t, q, [], crossing) == Ok(Spot(t, q))
  {
  }
}
