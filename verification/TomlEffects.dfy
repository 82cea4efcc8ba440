/** What single statements and whole runs of statements do to the tree. */
module TomlEffects {
  import opened Prelude
  import opened TomlTree

  // ----- one statement -----

  /** openTable: only missing tables on the way to the new current table appear. */
  lemma HeaderEffect(d: Doc, path: seq<string>, r: Path)
    requires Ready(d) && OpenTable(d, path).Ok?
    ensures var d' := OpenTable(d, path).value;
            && Ready(d')
            && ShapeAt(d'.tree, r)
               == if ShapeAt(d.tree, r) == Absent && IsPrefix(r, d'.cur) then Table else ShapeAt(d.tree, r)
  {
    WalkShape(d.tree, [], path, true, r);
    WalkShape(d.tree, [], path, true, []);
  }

  /** Where a header leads: along its path, through the last element of every array of tables
      on the way. */
  lemma HeaderDestination(d: Doc, path: seq<string>)
    requires Ready(d) && OpenTable(d, path).Ok?
    ensures var cur := OpenTable(d, path).value.cur; NamesOn(cur) == path && ThroughLast(d.tree, cur)
  {
    WalkDestination(d.tree, [], path, true);
  }

  /** Where an array header leads: to the new last element of the array its path names. */
  lemma ArrayDestination(d: Doc, path: seq<string>)
    requires Ready(d) && path != [] && OpenArray(d, path).Ok?
    ensures var d' := OpenArray(d, path).value;
            NamesOn(d'.cur) == path && ThroughLast(d'.tree, d'.cur)
  {
    var front, name := path[..|path| - 1], path[|path| - 1];
    hide Walk;
    hide Put;
    hide ThroughLast;
    ArrayCurrent(d, path);
    hide OpenArray;
    hide Get;
    var q := Walk(d.tree, [], front, true).value.at;
    var d' := OpenArray(d, path).value;
    var n := d'.cur[|d'.cur| - 1].i;
    assert ThroughLast(d.tree, []) by { NoSteps(d.tree); }
    WalkDestination(d.tree, [], front, true);
    NamesAppend(q, [Key(name), Idx(n)]);
    NamesOfTwo(name, n);
    assert path == front + [name];
    ElementThroughLast(d, path, q);
  }

  lemma NoSteps(t: Tree)
    ensures ThroughLast(t, []) && NamesOn([]) == []
  {
  }

  /** The current table after an array header. */
  lemma ArrayCurrent(d: Doc, path: seq<string>)
    requires Ready(d) && path != [] && OpenArray(d, path).Ok?
    ensures Walk(d.tree, [], path[..|path| - 1], true).Ok?
    ensures var cur := OpenArray(d, path).value.cur;
            var q := Walk(d.tree, [], path[..|path| - 1], true).value.at;
            |cur| == |q| + 2 && cur[|q| + 1].Idx? && cur == q + [Key(path[|path| - 1]), Idx(cur[|q| + 1].i)]
  {
    hide Walk;
    hide Put;
  }

  lemma ElementThroughLast(d: Doc, path: seq<string>, q: Path)
    requires Ready(d) && path != [] && OpenArray(d, path).Ok? && ThroughLast(d.tree, q)
    requires var cur := OpenArray(d, path).value.cur; |cur| == |q| + 2 && cur[..|q|] == q && cur[|q|].Key?
    ensures var d' := OpenArray(d, path).value; ThroughLast(d'.tree, d'.cur)
  {
    hide OpenArray;
    var d' := OpenArray(d, path).value;
    forall i | 0 <= i < |d'.cur| && d'.cur[i].Idx? ensures ShapeAt(d'.tree, d'.cur[..i]) == List(d'.cur[i].i + 1) {
      ArrayEffect(d, path, d'.cur[..i]);
      if i < |q| {
        assert d'.cur[..i] == q[..i] && d'.cur[i] == q[i];
      }
    }
  }

  lemma NamesOfTwo(k: string, n: nat)
    ensures NamesOn([Key(k), Idx(n)]) == [k]
  {
    assert [Key(k), Idx(n)][1..] == [Idx(n)] && [Idx(n)][1..] == [];
    assert NamesOn([Idx(n)]) == [];
    assert [k] + [] == [k];
  }

  lemma PrefixOfExtension(r: Path, q: Path, k: Step, i: Step)
    ensures IsPrefix(r, q + [k, i]) <==> IsPrefix(r, q) || r == q + [k] || r == q + [k, i]
  {
    var cur := q + [k, i];
    if IsPrefix(r, cur) {
      if |r| <= |q| {
        assert r == cur[..|r|] == q[..|r|];
      } else if |r| == |q| + 1 {
        assert r == cur[..|q| + 1] == q + [k];
      }
    }
    if IsPrefix(r, q) {
      assert cur[..|r|] == q[..|r|];
    }
    if r == q + [k] {
      assert cur[..|r|] == q + [k];
    }
  }

  /** Positions inside an array that gained one empty table at its end. */
  lemma AppendedShape(xs: seq<Tree>, p: Path)
    ensures ShapeAt(Arr(xs + [Map(map[])]), p)
         == if p == [] then List(|xs| + 1)
            else if p == [Idx(|xs|)] then Table
            else ShapeAt(Arr(xs), p)
  {
    var v := Arr(xs + [Map(map[])]);
    if p != [] && p[0].Idx? && p[0].i <= |xs| {
      if p[0].i < |xs| {
        assert v.elems[p[0].i] == xs[p[0].i];
      } else {
        assert Get(v, p) == Get(Map(map[]), p[1..]);
        if p[1..] == [] {
          assert p == [p[0]];
        }
      }
    }
  }

  /** Appending one empty table to the array of tables `name` (or starting it). */
  lemma AppendEffect(t: Tree, q: Path, name: string, xs: seq<Tree>, r: Path)
    requires IsTable(t, q)
    requires if name in TableAt(t, q) then TableAt(t, q)[name] == Arr(xs) else xs == []
    ensures var a := q + [Key(name)];
            var t' := Put(t, q, name, Arr(xs + [Map(map[])]));
            && ShapeAt(t, a) == (if name in TableAt(t, q) then List(|xs|) else Absent)
            && ShapeAt(t', r) == if r == a then List(|xs| + 1)
                                 else if r == q + [Key(name), Idx(|xs|)] then Table
                                 else ShapeAt(t, r)
  {
    var a := q + [Key(name)];
    var v := Arr(xs + [Map(map[])]);
    GetAppend(t, q, [Key(name)]);
    GetKey(Map(TableAt(t, q)), name);
    PutShape(t, q, name, v, r);
    if IsPrefix(a, r) {
      var p := r[|a|..];
      assert r == a + p;
      AppendedShape(xs, p);
      GetAppend(t, a, p);
      assert r == q + [Key(name), Idx(|xs|)] <==> p == [Idx(|xs|)] by {
        if r == q + [Key(name), Idx(|xs|)] { assert p == [Idx(|xs|)]; }
        if p == [Idx(|xs|)] { assert r == q + [Key(name), Idx(|xs|)]; }
      }
    }
  }

  lemma ShapeIsTable(t: Tree, p: Path)
    ensures IsTable(t, p) <==> ShapeAt(t, p) == Table
  {
  }

  /** openArrayTable: one empty table is appended to an array that was absent, an empty
      literal, or an array of tables; nothing else but missing tables on the way appears. */
  lemma ArrayEffect(d: Doc, path: seq<string>, r: Path)
    requires Ready(d) && path != [] && OpenArray(d, path).Ok?
    ensures var d' := OpenArray(d, path).value;
            && Ready(d') && d'.explicit == d.explicit
            && |d'.cur| >= 2 && d'.cur[|d'.cur| - 1].Idx?
            && var n := d'.cur[|d'.cur| - 1].i;
               var a := d'.cur[..|d'.cur| - 1];
               && (ShapeAt(d.tree, a) == List(n) || (ShapeAt(d.tree, a) == Absent && n == 0))
               && ShapeAt(d.tree, d'.cur) == Absent
               && ShapeAt(d'.tree, r)
                  == if r == a then List(n + 1)
                     else if ShapeAt(d.tree, r) == Absent && IsPrefix(r, d'.cur) then Table
                     else ShapeAt(d.tree, r)
  {
    var front, name := path[..|path| - 1], path[|path| - 1];
    var Spot(t, q) := Walk(d.tree, [], front, true).value;
    var xs := if name in TableAt(t, q) then TableAt(t, q)[name].elems else [];
    var a, cur := q + [Key(name)], q + [Key(name), Idx(|xs|)];
    assert OpenArray(d, path).value == Doc(Put(t, q, name, Arr(xs + [Map(map[])])), cur, d.explicit);
    hide OpenArray;
    hide Walk;
    assert cur[..|cur| - 1] == a;
    AppendEffect(t, q, name, xs, r);
    AppendEffect(t, q, name, xs, cur);
    AppendEffect(t, q, name, xs, []);
    BeyondEnd(t, q, name, xs);
    hide Put;
    hide Get;
    hide ShapeAt;
    PrefixOfExtension(r, q, Key(name), Idx(|xs|));
    PrefixOfExtension(a, q, Key(name), Idx(|xs|));
    WalkShape(d.tree, [], front, true, r);
    WalkShape(d.tree, [], front, true, a);
    WalkShape(d.tree, [], front, true, cur);
    WalkShape(d.tree, [], front, true, []);
    ShapeIsTable(OpenArray(d, path).value.tree, cur);
    ShapeIsTable(OpenArray(d, path).value.tree, []);
    ShapeIsTable(d.tree, []);
  }

  /** No element lies beyond the end of an array. */
  lemma BeyondEnd(t: Tree, q: Path, name: string, xs: seq<Tree>)
    requires IsTable(t, q)
    requires if name in TableAt(t, q) then TableAt(t, q)[name] == Arr(xs) else xs == []
    ensures ShapeAt(t, q + [Key(name), Idx(|xs|)]) == Absent
  {
    var a := q + [Key(name)];
    assert q + [Key(name), Idx(|xs|)] == a + [Idx(|xs|)];
    GetAppend(t, a, [Idx(|xs|)]);
    assert [Idx(|xs|)][1..] == [];
    GetAppend(t, q, [Key(name)]);
    GetKey(Map(TableAt(t, q)), name);
  }

  /** An accepted key/value statement writes at the end of its walk, where the key is free. */
  lemma KeyWritten(d: Doc, path: seq<string>, v: Tree)
    requires Ready(d) && path != [] && AddKey(d, path, v).Ok?
    ensures Walk(d.tree, d.cur, path[..|path| - 1], false).Ok?
    ensures var Spot(t, q) := Walk(d.tree, d.cur, path[..|path| - 1], false).value;
            var leaf := path[|path| - 1];
            leaf !in TableAt(t, q) && AddKey(d, path, v).value == d.(tree := Put(t, q, leaf, v))
  {
    hide Walk;
  }

  /** The positions of a tree after a walk to `q` and a write of `leaf` there. */
  lemma KeyShape(d: Doc, path: seq<string>, v: Tree, r: Path)
    requires Ready(d) && path != [] && AddKey(d, path, v).Ok?
    ensures var base := d.cur + Keys(path);
            && ShapeAt(d.tree, base) == Absent
            && ShapeAt(AddKey(d, path, v).value.tree, r)
               == if IsPrefix(base, r) then ShapeAt(v, r[|base|..])
                  else if ShapeAt(d.tree, r) == Absent && IsPrefix(r, base) then Table
                  else ShapeAt(d.tree, r)
  {
    hide AddKey;
    hide Walk;
    hide Put;
    hide Get;
    hide ShapeAt;
    KeyWritten(d, path, v);
    var front, leaf := path[..|path| - 1], path[|path| - 1];
    var Spot(t, q) := Walk(d.tree, d.cur, front, false).value;
    var base := d.cur + Keys(path);
    WalkShape(d.tree, d.cur, front, false, r);
    WalkShape(d.tree, d.cur, front, false, base);
    assert path == front + [leaf];
    assert base == q + [Key(leaf)];
    FreeKey(t, q, leaf);
    PutShape(t, q, leaf, v, r);
    PrefixOfOneMore(r, q, Key(leaf));
    PrefixOfOneMore(base, q, Key(leaf));
  }

  lemma FreeKey(t: Tree, q: Path, k: string)
    requires IsTable(t, q)
    ensures k !in TableAt(t, q) <==> ShapeAt(t, q + [Key(k)]) == Absent
  {
    GetAppend(t, q, [Key(k)]);
    GetKey(Map(TableAt(t, q)), k);
  }

  lemma PrefixOfOneMore(r: Path, q: Path, k: Step)
    ensures IsPrefix(r, q + [k]) <==> IsPrefix(r, q) || r == q + [k]
  {
    var cur := q + [k];
    if IsPrefix(r, cur) && |r| <= |q| { assert r == cur[..|r|] == q[..|r|]; }
    if IsPrefix(r, q) { assert cur[..|r|] == q[..|r|]; }
  }

  /** parseKeyValue's tree half: the key was free, its value's positions are added there,
      missing tables on the way appear, and nothing else changes. */
  lemma KeyEffect(d: Doc, path: seq<string>, v: Tree, r: Path)
    requires Ready(d) && path != [] && AddKey(d, path, v).Ok?
    ensures var d' := AddKey(d, path, v).value;
            var base := d.cur + Keys(path);
            && Ready(d') && d'.cur == d.cur && d'.explicit == d.explicit
            && ShapeAt(d.tree, base) == Absent
            && ShapeAt(d'.tree, r)
               == if IsPrefix(base, r) then ShapeAt(v, r[|base|..])
                  else if ShapeAt(d.tree, r) == Absent && IsPrefix(r, base) then Table
                  else ShapeAt(d.tree, r)
  {
    var d' := AddKey(d, path, v).value;
    KeyShape(d, path, v, r);
    // the root and the current table stay tables
    KeyShape(d, path, v, []);
    KeyShape(d, path, v, d.cur);
    ShapeIsTable(d'.tree, d.cur);
    hide Put;
    hide Walk;
  }

  lemma ApplyReady(d: Doc, s: Stmt)
    requires Ready(d) && Proper(s) && Apply(d, s).Ok?
    ensures Ready(Apply(d, s).value)
  {
    match s
    case Header(path) => HeaderEffect(d, path, []);
    case ArrayHeader(path) => ArrayEffect(d, path, []);
    case KeyVal(path, v) => KeyEffect(d, path, v, []);
  }

  /** The exact condition for a key/value statement: its position is free and no proper
      prefix of it holds a value. */
  lemma KeyCondition(d: Doc, path: seq<string>, v: Tree)
    requires Ready(d) && path != []
    ensures AddKey(d, path, v).Ok? <==>
            && ShapeAt(d.tree, d.cur + Keys(path)) == Absent
            && forall i :: 1 <= i < |path| ==> ShapeAt(d.tree, d.cur + Keys(path[..i])) in {Absent, Table}
  {
    var front, leaf := path[..|path| - 1], path[|path| - 1];
    WalkSucceeds(d.tree, d.cur, front);
    assert forall i :: 1 <= i < |path| ==> front[..i] == path[..i];
    if Walk(d.tree, d.cur, front, false).Ok? {
      var Spot(t, q) := Walk(d.tree, d.cur, front, false).value;
      var base := d.cur + Keys(path);
      WalkShape(d.tree, d.cur, front, false, base);
      assert AddKey(d, path, v).Ok? <==> leaf !in TableAt(t, q);
      hide AddKey;
      hide Walk;
      hide ShapeAt;
      hide Get;
      assert path == front + [leaf];
      assert base == q + [Key(leaf)];
      FreeKey(t, q, leaf);
      PrefixOfOneMore(base, q, Key(leaf));
    }
  }

  /** An array of tables can be started or continued at `a`: the position is free, an empty
      list, or a list whose last element is a table. */
  predicate Extendable(t: Tree, a: Path) {
    match ShapeAt(t, a)
    case Absent => true
    case List(n) => n == 0 || ShapeAt(t, a + [Idx(n - 1)]) == Table
    case _ => false
  }

  /** The tree leads along the path `front` to a table, or to where one can be created, in
      which an array of tables `name` can be started or continued. */
  ghost predicate ArrayFits(t: Tree, front: seq<string>, name: string) {
    exists q :: Leads(t, [], q) && NamesOn(q) == front && Extendable(t, q + [Key(name)])
  }

  /** The exact condition for an array header, on the positions of the tree. */
  lemma ArrayCondition(d: Doc, path: seq<string>)
    requires Ready(d) && path != []
    ensures OpenArray(d, path).Ok? <==> ArrayFits(d.tree, path[..|path| - 1], path[|path| - 1])
  {
    var front, name := path[..|path| - 1], path[|path| - 1];
    CrossingSucceeds(d.tree, [], front);
    forall q | Leads(d.tree, [], q) && NamesOn(q) == front
      ensures Walk(d.tree, [], front, true).Ok? && Walk(d.tree, [], front, true).value.at == q
    {
      assert q[0..] == q;
    }
    if Walk(d.tree, [], front, true).Ok? {
      var q := Walk(d.tree, [], front, true).value.at;
      WalkLeads(d.tree, [], front);
      WalkDestination(d.tree, [], front, true);
      ArrayTarget(d, path);
      assert ArrayFits(d.tree, front, name) <==> Extendable(d.tree, q + [Key(name)]);
    }
  }

  /** After the walk, only the array itself decides. */
  lemma ArrayTarget(d: Doc, path: seq<string>)
    requires Ready(d) && path != [] && Walk(d.tree, [], path[..|path| - 1], true).Ok?
    ensures var q := Walk(d.tree, [], path[..|path| - 1], true).value.at;
            OpenArray(d, path).Ok? <==> Extendable(d.tree, q + [Key(path[|path| - 1])])
  {
    var front, name := path[..|path| - 1], path[|path| - 1];
    var Spot(t, q) := Walk(d.tree, [], front, true).value;
    var a := q + [Key(name)];
    GetAppend(t, q, [Key(name)]);
    GetKey(Map(TableAt(t, q)), name);
    WalkShape(d.tree, [], front, true, a);
    if ShapeAt(t, a).List? && ShapeAt(t, a).len > 0 {
      var last := Idx(ShapeAt(t, a).len - 1);
      WalkShape(d.tree, [], front, true, a + [last]);
      GetAppend(t, a, [last]);
      assert [last][1..] == [];
    }
  }

  /** The exact condition for a [table] header, on the positions of the tree. */
  lemma TableCondition(d: Doc, path: seq<string>)
    requires Ready(d)
    ensures OpenTable(d, path).Ok? <==>
            JoinNul(path) !in d.explicit && exists q :: Leads(d.tree, [], q) && NamesOn(q) == path
  {
    CrossingSucceeds(d.tree, [], path);
    forall q: Path ensures q[0..] == q {
    }
    if Walk(d.tree, [], path, true).Ok? {
      WalkLeads(d.tree, [], path);
      WalkDestination(d.tree, [], path, true);
    }
  }

  // ----- arrays stay uniform -----

  /** Every array is either a nonempty array of tables or contains no table at any depth. */
  predicate Uniform(t: Tree) {
    match t
    case Leaf(_) => true
    case Arr(xs) =>
      NoTables(t) || (xs != [] && forall i :: 0 <= i < |xs| ==> xs[i].Map? && Uniform(xs[i]))
    case Map(m) => forall k :: k in m ==> Uniform(m[k])
  }

  lemma {:induction false} NoTableBelow(t: Tree, p: Path)
    requires NoTables(t)
    ensures ShapeAt(t, p) != Table
  {
    if p != [] && p[0].Idx? && t.Arr? && p[0].i < |t.elems| {
      NoTableBelow(t.elems[p[0].i], p[1..]);
    }
  }

  lemma {:induction false} UniformGet(t: Tree, p: Path)
    requires Uniform(t) && Get(t, p).Some?
    ensures Uniform(Get(t, p).value)
    decreases t
  {
    if p == [] {
    } else {
      match p[0] {
        case Key(k) => UniformGet(t.entries[k], p[1..]);
        case Idx(i) =>
          if NoTables(t) { NoTablesUniform(t.elems[i]); }
          UniformGet(t.elems[i], p[1..]);
      }
    }
  }

  lemma NoTablesUniform(t: Tree)
    requires NoTables(t)
    ensures Uniform(t)
  {
  }

  lemma {:induction false} UniformPut(t: Tree, q: Path, k: string, v: Tree)
    requires IsTable(t, q) && Uniform(t) && Uniform(v)
    ensures Uniform(Put(t, q, k, v))
    decreases t
  {
    if q == [] {
    } else {
      match q[0] {
        case Key(j) => UniformPut(t.entries[j], q[1..], k, v);
        case Idx(i) =>
          if NoTables(t) { NoTableBelow(t, q); }
          UniformPut(t.elems[i], q[1..], k, v);
          var xs := Put(t, q, k, v).elems;
          assert xs[i].Map? by { if q[1..] != [] { assert t.elems[i].Map?; } }
          assert forall j :: 0 <= j < |xs| && j != i ==> xs[j] == t.elems[j];
      }
    }
  }

  lemma {:induction false} WalkUniform(t: Tree, q: Path, path: seq<string>, crossing: bool)
    requires IsTable(t, q) && Uniform(t) && Walk(t, q, path, crossing).Ok?
    ensures Uniform(Walk(t, q, path, crossing).value.tree)
    decreases |path|
  {
    if path == [] {
    } else {
      var m := TableAt(t, q);
      var next := q + [Key(path[0])];
      if path[0] !in m {
        UniformPut(t, q, path[0], Map(map[]));
        Grow(t, q, path[0], Map(map[]));
        WalkUniform(Put(t, q, path[0], Map(map[])), next, path[1..], crossing);
      } else {
        GetAppend(t, q, [Key(path[0])]);
        match m[path[0]] {
          case Map(_) => WalkUniform(t, next, path[1..], crossing);
          case Arr(xs) =>
            GetAppend(t, next, [Idx(|xs| - 1)]);
            WalkUniform(t, next + [Idx(|xs| - 1)], path[1..], crossing);
        }
      }
    }
  }

  lemma ArrayUniform(d: Doc, path: seq<string>)
    requires Ready(d) && path != [] && Uniform(d.tree) && OpenArray(d, path).Ok?
    ensures Uniform(OpenArray(d, path).value.tree)
  {
    var front, name := path[..|path| - 1], path[|path| - 1];
    WalkUniform(d.tree, [], front, true);
    var Spot(t, q) := Walk(d.tree, [], front, true).value;
    UniformGet(t, q);
    hide Get;
    hide Put;
    hide Walk;
    var xs := if name in TableAt(t, q) then TableAt(t, q)[name].elems else [];
    if xs != [] {
      assert Uniform(Arr(xs)) && !NoTables(xs[|xs| - 1]);
    }
    UniformPut(t, q, name, Arr(xs + [Map(map[])]));
  }

  lemma KeyUniform(d: Doc, path: seq<string>, v: Tree)
    requires Ready(d) && path != [] && NoTables(v) && Uniform(d.tree) && AddKey(d, path, v).Ok?
    ensures Uniform(AddKey(d, path, v).value.tree)
  {
    hide Uniform;
    var front := path[..|path| - 1];
    WalkUniform(d.tree, d.cur, front, false);
    var Spot(t, q) := Walk(d.tree, d.cur, front, false).value;
    NoTablesUniform(v);
    UniformPut(t, q, path[|path| - 1], v);
  }

  lemma ApplyUniform(d: Doc, s: Stmt)
    requires Ready(d) && Proper(s) && Uniform(d.tree) && Apply(d, s).Ok?
    ensures Uniform(Apply(d, s).value.tree)
  {
    hide Uniform;
    match s {
      case Header(path) => WalkUniform(d.tree, [], path, true);
      case ArrayHeader(path) => ArrayUniform(d, path);
      case KeyVal(path, v) => KeyUniform(d, path, v);
    }
  }
}
