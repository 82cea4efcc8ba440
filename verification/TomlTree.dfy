/** The tree a TOML document denotes, and what each statement does to it
    (the second half of parseTableHeader and parseKeyValue). */
module TomlTree {
  import opened Prelude

  datatype Scalar = Str(s: string) | Int(n: int) | Float(lit: string) | Bool(b: bool)

  datatype Tree = Leaf(x: Scalar) | Arr(elems: seq<Tree>) | Map(entries: map<string, Tree>)

  /** One step of an indexed path: a table key or an array index. */
  datatype Step = Key(k: string) | Idx(i: nat)
  type Path = seq<Step>

  /** Every way parsing can fail. */
  datatype Kind =
    | EndInKey | BadKeyChar | UnclosedHeader | UnclosedArrayHeader | ExpectedEquals | TrailingText
    | ExpectedValue | UnexpectedValue | MultilineString | InlineTable
    | UnterminatedString | NewlineInString | UnterminatedEscape | UnknownEscape
    | TruncatedEscape | InvalidEscape | NotAScalarValue
    | ExpectedNumber | BareDatetime | InvalidNumber
    | UnterminatedArray | ExpectedComma
    | DefinedTwice | EmptyArray | ArrayOfValues | HoldsValue | CannotExtend | NotAnArray | SetTwice

  // ----- trees and paths -----

  function Get(t: Tree, p: Path): Option<Tree> {
    if p == [] then Some(t)
    else match p[0]
      case Key(k) => if t.Map? && k in t.entries then Get(t.entries[k], p[1..]) else None
      case Idx(i) => if t.Arr? && i < |t.elems| then Get(t.elems[i], p[1..]) else None
  }

  predicate IsTable(t: Tree, p: Path) {
    Get(t, p).Some? && Get(t, p).value.Map?
  }

  function TableAt(t: Tree, p: Path): map<string, Tree>
    requires IsTable(t, p)
  {
    Get(t, p).value.entries
  }

  /** The tree in which the table at `q` holds `v` under `k`. */
  function Put(t: Tree, q: Path, k: string, v: Tree): Tree
    requires IsTable(t, q)
  {
    if q == [] then Map(t.entries[k := v])
    else match q[0]
      case Key(j) => Map(t.entries[j := Put(t.entries[j], q[1..], k, v)])
      case Idx(i) => Arr(t.elems[i := Put(t.elems[i], q[1..], k, v)])
  }

  function Keys(path: seq<string>): (p: Path)
    ensures |p| == |path|
  {
    seq(|path|, i requires 0 <= i < |path| => Key(path[i]))
  }

  lemma KeysAppend(a: seq<string>, b: seq<string>)
    ensures Keys(a + b) == Keys(a) + Keys(b)
  {
  }

  /** What sits at one position of a tree, without what is below it. */
  datatype Shape = Absent | Scal(x: Scalar) | List(len: nat) | Table

  function ShapeOf(t: Tree): Shape {
    match t
    case Leaf(x) => Scal(x)
    case Arr(es) => List(|es|)
    case Map(_) => Table
  }

  function ShapeAt(t: Tree, p: Path): Shape {
    match Get(t, p)
    case None => Absent
    case Some(x) => ShapeOf(x)
  }

  lemma {:induction false} GetAppend(t: Tree, p: Path, r: Path)
    ensures Get(t, p + r) == match Get(t, p) case None => None case Some(x) => Get(x, r)
  {
    if p == [] {
      assert p + r == r;
    } else {
      assert (p + r)[0] == p[0] && (p + r)[1..] == p[1..] + r;
      match p[0] {
        case Key(k) => if t.Map? && k in t.entries { GetAppend(t.entries[k], p[1..], r); }
        case Idx(i) => if t.Arr? && i < |t.elems| { GetAppend(t.elems[i], p[1..], r); }
      }
    }
  }

  lemma GetKey(t: Tree, k: string)
    requires t.Map?
    ensures Get(t, [Key(k)]) == if k in t.entries then Some(t.entries[k]) else None
  {
    assert [Key(k)][1..] == [];
  }

  /** Nothing lives below a missing position. */
  lemma AbsentBelow(t: Tree, p: Path, r: Path)
    requires ShapeAt(t, p) == Absent && IsPrefix(p, r)
    ensures ShapeAt(t, r) == Absent
  {
    assert r == p + r[|p|..];
    GetAppend(t, p, r[|p|..]);
  }

  /** The subtree one step down. */
  function Child(t: Tree, s: Step): Tree
    requires Get(t, [s]).Some?
  {
    Get(t, [s]).value
  }

  lemma PutBelow(t: Tree, q: Path, k: string, v: Tree, r: Path)
    requires q != [] && r != [] && IsTable(t, q)
    ensures Get(t, [q[0]]).Some? && IsTable(Child(t, q[0]), q[1..])
    ensures ShapeAt(Put(t, q, k, v), r)
         == if r[0] == q[0] then ShapeAt(Put(Child(t, q[0]), q[1..], k, v), r[1..]) else ShapeAt(t, r)
    ensures r[0] == q[0] ==> ShapeAt(t, r) == ShapeAt(Child(t, q[0]), r[1..])
  {
    assert [q[0]][1..] == [];
  }

  /** The whole effect of Put: exactly the positions at or below the written entry change. */
  lemma {:induction false} PutShape(t: Tree, q: Path, k: string, v: Tree, r: Path)
    requires IsTable(t, q)
    ensures ShapeAt(Put(t, q, k, v), r)
         == if IsPrefix(q + [Key(k)], r) then ShapeAt(v, r[|q| + 1..]) else ShapeAt(t, r)
    decreases |q|
  {
    if r == [] {
    } else if q == [] {
      assert q + [Key(k)] == [Key(k)];
    } else {
      PutBelow(t, q, k, v, r);
      hide Get;
      hide Put;
      hide ShapeAt;
      hide IsTable;
      assert (q + [Key(k)])[0] == q[0] && (q + [Key(k)])[1..] == q[1..] + [Key(k)];
      PrefixTail(q + [Key(k)], r);
      TailTail(q, k, r);
      if r[0] == q[0] {
        PutShape(Child(t, q[0]), q[1..], k, v, r[1..]);
      }
    }
  }

  lemma TailTail(q: Path, k: string, r: Path)
    requires q != [] && r != []
    ensures IsPrefix(q + [Key(k)], r) ==> |q| < |r| && r[1..][|q[1..]| + 1..] == r[|q| + 1..]
  {
  }

  lemma PrefixTail<T>(p: seq<T>, r: seq<T>)
    requires p != [] && r != []
    ensures IsPrefix(p, r) <==> p[0] == r[0] && IsPrefix(p[1..], r[1..])
  {
    if IsPrefix(p, r) {
      assert r[1..][..|p| - 1] == r[..|p|][1..];
    }
    if p[0] == r[0] && IsPrefix(p[1..], r[1..]) {
      assert r[..|p|] == [r[0]] + r[1..][..|p| - 1];
    }
  }

  /** A tree is determined by what sits at its positions. */
  lemma {:induction false} Extensional(a: Tree, b: Tree)
    requires forall p :: ShapeAt(a, p) == ShapeAt(b, p)
    ensures a == b
    decreases a
  {
    assert ShapeAt(a, []) == ShapeAt(b, []);
    match a {
      case Leaf(_) =>
      case Arr(xs) =>
        forall i | 0 <= i < |xs| ensures xs[i] == b.elems[i] {
          forall p ensures ShapeAt(xs[i], p) == ShapeAt(b.elems[i], p) {
            assert ShapeAt(a, [Idx(i)] + p) == ShapeAt(b, [Idx(i)] + p);
            GetAppend(a, [Idx(i)], p);
            GetAppend(b, [Idx(i)], p);
          }
          Extensional(xs[i], b.elems[i]);
        }
      case Map(m) =>
        forall k ensures k in m <==> k in b.entries {
          assert ShapeAt(a, [Key(k)]) == ShapeAt(b, [Key(k)]);
          GetKey(a, k);
          GetKey(b, k);
        }
        forall k | k in m ensures m[k] == b.entries[k] {
          forall p ensures ShapeAt(m[k], p) == ShapeAt(b.entries[k], p) {
            assert ShapeAt(a, [Key(k)] + p) == ShapeAt(b, [Key(k)] + p);
            GetAppend(a, [Key(k)], p);
            GetAppend(b, [Key(k)], p);
          }
          Extensional(m[k], b.entries[k]);
        }
    }
  }

  // ----- statements -----

  /** A tree under construction: the current table and the [table] headers already seen. */
  datatype Doc = Doc(tree: Tree, cur: Path, explicit: set<string>)

  const EMPTY := Doc(Map(map[]), [], {})

  datatype Stmt = Header(path: seq<string>) | ArrayHeader(path: seq<string>) | KeyVal(path: seq<string>, v: Tree)

  /** A table reached by a walk, in the tree the walk left behind. */
  datatype Spot = Spot(tree: Tree, at: Path)

  /** Writing an empty table under a new key. */
  lemma Grow(t: Tree, q: Path, k: string, v: Tree)
    requires IsTable(t, q)
    ensures Get(Put(t, q, k, v), q + [Key(k)]) == Some(v)
  {
    if q == [] {
      assert q + [Key(k)] == [Key(k)];
    } else {
      assert (q + [Key(k)])[0] == q[0] && (q + [Key(k)])[1..] == q[1..] + [Key(k)];
      match q[0] {
        case Key(j) => Grow(t.entries[j], q[1..], k, v);
        case Idx(i) => Grow(t.elems[i], q[1..], k, v);
      }
    }
  }

  /** The walk of a header path from the table at `q`: `crossing` lets it pass into the
      last element of an array of tables (descend); without it any non-table stops the
      walk (the dotted prefix of a key). */
  function Walk(t: Tree, q: Path, path: seq<string>, crossing: bool): (r: Result<Spot, Kind>)
    requires IsTable(t, q)
    ensures r.Ok? ==> IsTable(r.value.tree, r.value.at)
    decreases |path|
  {
    if path == [] then Ok(Spot(t, q))
    else
      var m := TableAt(t, q);
      var next := q + [Key(path[0])];
      if path[0] !in m then
        Grow(t, q, path[0], Map(map[]));
        Walk(Put(t, q, path[0], Map(map[])), next, path[1..], crossing)
      else
        GetAppend(t, q, [Key(path[0])]);
        match m[path[0]]
        case Map(_) => Walk(t, next, path[1..], crossing)
        case Arr(xs) =>
          if !crossing then Err(HoldsValue)
          else if xs == [] then Err(EmptyArray)
          else if !xs[|xs| - 1].Map? then Err(ArrayOfValues)
          else
            GetAppend(t, next, [Idx(|xs| - 1)]);
            Walk(t, next + [Idx(|xs| - 1)], path[1..], crossing)
        case Leaf(_) => Err(HoldsValue)
  }

  function JoinNul(path: seq<string>): string {
    Join(path, "\0")
  }

  function OpenTable(d: Doc, path: seq<string>): Result<Doc, Kind>
    requires d.tree.Map?
  {
    if JoinNul(path) in d.explicit then Err(DefinedTwice)
    else
      match Walk(d.tree, [], path, true)
      case Err(e) => Err(e)
      case Ok(Spot(t, q)) => Ok(Doc(t, q, d.explicit + {JoinNul(path)}))
  }

  function OpenArray(d: Doc, path: seq<string>): Result<Doc, Kind>
    requires d.tree.Map? && path != []
  {
    match Walk(d.tree, [], path[..|path| - 1], true)
    case Err(e) => Err(e)
    case Ok(Spot(t, q)) =>
      var name := path[|path| - 1];
      var m := TableAt(t, q);
      if name in m && !m[name].Arr? then Err(NotAnArray)
      else
        var xs := if name in m then m[name].elems else [];
        if xs != [] && !xs[|xs| - 1].Map? then Err(CannotExtend)
        else Ok(Doc(Put(t, q, name, Arr(xs + [Map(map[])])), q + [Key(name), Idx(|xs|)], d.explicit))
  }

  function AddKey(d: Doc, path: seq<string>, v: Tree): Result<Doc, Kind>
    requires IsTable(d.tree, d.cur) && path != []
  {
    match Walk(d.tree, d.cur, path[..|path| - 1], false)
    case Err(e) => Err(e)
    case Ok(Spot(t, q)) =>
      var leaf := path[|path| - 1];
      if leaf in TableAt(t, q) then Err(SetTwice)
      else Ok(d.(tree := Put(t, q, leaf, v)))
  }

  /** Any step keeps the root a table and the current table in the tree. */
  predicate Ready(d: Doc) {
    d.tree.Map? && IsTable(d.tree, d.cur)
  }

  predicate Proper(s: Stmt) {
    s.path != [] && (s.KeyVal? ==> NoTables(s.v))
  }

  function Apply(d: Doc, s: Stmt): Result<Doc, Kind>
    requires Ready(d) && Proper(s)
  {
    match s
    case Header(path) => OpenTable(d, path)
    case ArrayHeader(path) => OpenArray(d, path)
    case KeyVal(path, v) => AddKey(d, path, v)
  }

  /** The value contains no table at any depth: what a value expression can denote. */
  predicate NoTables(t: Tree) {
    match t
    case Leaf(_) => true
    case Arr(xs) => forall i :: 0 <= i < |xs| ==> NoTables(xs[i])
    case Map(_) => false
  }

  // ----- what a walk does -----

  /** Creating one empty table. */
  lemma SubtableShape(t: Tree, q: Path, k: string, r: Path)
    requires IsTable(t, q) && k !in TableAt(t, q)
    ensures var next := q + [Key(k)];
            ShapeAt(Put(t, q, k, Map(map[])), r) == if r == next then Table else ShapeAt(t, r)
    ensures r == q + [Key(k)] ==> ShapeAt(t, r) == Absent
  {
    var next := q + [Key(k)];
    PutShape(t, q, k, Map(map[]), r);
    GetAppend(t, q, [Key(k)]);
    GetKey(Map(TableAt(t, q)), k);
    if IsPrefix(next, r) {
      AbsentBelow(t, next, r);
      if r == next {
        assert r[|q| + 1..] == [];
      } else {
        assert r[|q| + 1..] != [];
      }
    }
  }

  /** The same, for a table created on the way to `p`. */
  lemma ThroughCreated(t: Tree, q: Path, k: string, p: Path, r: Path)
    requires IsTable(t, q) && k !in TableAt(t, q) && IsPrefix(q + [Key(k)], p)
    ensures var t1 := Put(t, q, k, Map(map[]));
            (if ShapeAt(t1, r) == Absent && IsPrefix(r, p) then Table else ShapeAt(t1, r))
            == if ShapeAt(t, r) == Absent && IsPrefix(r, p) then Table else ShapeAt(t, r)
  {
    hide ShapeAt;
    hide Put;
    SubtableShape(t, q, k, r);
  }

  /** The first step of a walk: what it creates shows only on the way to where it leads. */
  lemma FirstStep(t: Tree, q: Path, path: seq<string>, crossing: bool, r: Path) returns (t1: Tree, q1: Path)
    requires IsTable(t, q) && path != [] && Walk(t, q, path, crossing).Ok?
    ensures IsTable(t1, q1) && Walk(t1, q1, path[1..], crossing) == Walk(t, q, path, crossing)
    ensures IsPrefix(q + [Key(path[0])], q1) && (!crossing ==> q1 == q + [Key(path[0])])
    ensures forall p :: IsPrefix(q1, p) ==>
              (if ShapeAt(t1, r) == Absent && IsPrefix(r, p) then Table else ShapeAt(t1, r))
              == if ShapeAt(t, r) == Absent && IsPrefix(r, p) then Table else ShapeAt(t, r)
  {
    var m := TableAt(t, q);
    var next := q + [Key(path[0])];
    if path[0] !in m {
      t1, q1 := Put(t, q, path[0], Map(map[])), next;
      Grow(t, q, path[0], Map(map[]));
      forall p | IsPrefix(q1, p) ensures
        (if ShapeAt(t1, r) == Absent && IsPrefix(r, p) then Table else ShapeAt(t1, r))
        == if ShapeAt(t, r) == Absent && IsPrefix(r, p) then Table else ShapeAt(t, r)
      {
        ThroughCreated(t, q, path[0], p, r);
      }
    } else {
      GetAppend(t, q, [Key(path[0])]);
      match m[path[0]] {
        case Map(_) => t1, q1 := t, next;
        case Arr(xs) =>
          GetAppend(t, next, [Idx(|xs| - 1)]);
          t1, q1 := t, next + [Idx(|xs| - 1)];
      }
    }
  }

  /** A walk only creates tables, on the way to the spot it reaches; everything else stays. */
  lemma {:induction false} WalkShape(t: Tree, q: Path, path: seq<string>, crossing: bool, r: Path)
    requires IsTable(t, q) && Walk(t, q, path, crossing).Ok?
    ensures var Spot(t', q') := Walk(t, q, path, crossing).value;
            && IsPrefix(q, q')
            && (!crossing ==> q' == q + Keys(path))
            && ShapeAt(t', r) == if ShapeAt(t, r) == Absent && IsPrefix(r, q') then Table else ShapeAt(t, r)
    decreases |path|
  {
    if path == [] {
      assert q + Keys([]) == q;
      if IsPrefix(r, q) {
        assert q == r + q[|r|..];
        GetAppend(t, r, q[|r|..]);
      }
    } else {
      hide Walk;
      hide ShapeAt;
      var next := q + [Key(path[0])];
      assert q + Keys(path) == next + Keys(path[1..]);
      var t1, q1 := FirstStep(t, q, path, crossing, r);
      WalkShape(t1, q1, path[1..], crossing, r);
      PrefixTransitive(next, q1, Walk(t, q, path, crossing).value.at);
      PrefixTransitive(q, next, Walk(t, q, path, crossing).value.at);
    }
  }

  /** The keys on an indexed path. */
  function NamesOn(p: Path): seq<string> {
    if p == [] then []
    else (if p[0].Key? then [p[0].k] else []) + NamesOn(p[1..])
  }

  lemma {:induction false} NamesAppend(a: Path, b: Path)
    ensures NamesOn(a + b) == NamesOn(a) + NamesOn(b)
  {
    if a == [] {
      assert a + b == b;
    } else {
      assert (a + b)[0] == a[0] && (a + b)[1..] == a[1..] + b;
      NamesAppend(a[1..], b);
    }
  }

  /** Every index on the path is the one of the last element of its array. */
  predicate ThroughLast(t: Tree, p: Path) {
    forall i :: 0 <= i < |p| && p[i].Idx? ==> ShapeAt(t, p[..i]) == List(p[i].i + 1)
  }

  lemma ThroughLastMore(t: Tree, p: Path, s: Step)
    requires ThroughLast(t, p) && (s.Idx? ==> ShapeAt(t, p) == List(s.i + 1))
    ensures ThroughLast(t, p + [s])
  {
    var r := p + [s];
    forall i | 0 <= i < |r| && r[i].Idx? ensures ShapeAt(t, r[..i]) == List(r[i].i + 1) {
      if i < |p| {
        assert r[..i] == p[..i];
      } else {
        assert r[..i] == p;
      }
    }
  }

  lemma ThroughLastAfter(t: Tree, q: Path, k: string, p: Path)
    requires IsTable(t, q) && k !in TableAt(t, q)
    ensures ThroughLast(Put(t, q, k, Map(map[])), p) ==> ThroughLast(t, p)
  {
    forall i | 0 <= i < |p| && p[i].Idx?
      ensures ShapeAt(Put(t, q, k, Map(map[])), p[..i]) == List(p[i].i + 1) ==> ShapeAt(t, p[..i]) == List(p[i].i + 1)
    {
      SubtableShape(t, q, k, p[..i]);
    }
  }

  /** Where a walk ends: it follows the keys of its path, and enters an array of tables, if
      it may, through its last element only. */
  lemma {:induction false} WalkDestination(t: Tree, q: Path, path: seq<string>, crossing: bool)
    requires IsTable(t, q) && ThroughLast(t, q) && Walk(t, q, path, crossing).Ok?
    ensures var q' := Walk(t, q, path, crossing).value.at;
            NamesOn(q') == NamesOn(q) + path && ThroughLast(t, q')
    decreases |path|
  {
    if path == [] {
      assert NamesOn(q) + [] == NamesOn(q);
    } else {
      var m := TableAt(t, q);
      var k := path[0];
      var next := q + [Key(k)];
      NamesAppend(q, [Key(k)]);
      assert NamesOn([Key(k)]) == [k] by { assert [Key(k)][1..] == []; }
      assert NamesOn(q) + [k] + path[1..] == NamesOn(q) + path;
      GetAppend(t, q, [Key(k)]);
      GetKey(Map(m), k);
      if k !in m {
        var g := Put(t, q, k, Map(map[]));
        Grow(t, q, k, Map(map[]));
        ThroughLastPut(t, q, k);
        ThroughLastMore(g, q, Key(k));
        WalkDestination(g, next, path[1..], crossing);
        ThroughLastAfter(t, q, k, Walk(g, next, path[1..], crossing).value.at);
      } else {
        ThroughLastMore(t, q, Key(k));
        match m[k] {
          case Map(_) => WalkDestination(t, next, path[1..], crossing);
          case Arr(xs) =>
            var last := Idx(|xs| - 1);
            GetAppend(t, next, [last]);
            ThroughLastMore(t, next, last);
            NamesAppend(next, [last]);
            assert NamesOn([last]) == [] by { assert [last][1..] == []; }
            assert NamesOn(next) + [] == NamesOn(next);
            WalkDestination(t, next + [last], path[1..], crossing);
        }
      }
    }
  }

  lemma ThroughLastPut(t: Tree, q: Path, k: string)
    requires IsTable(t, q) && k !in TableAt(t, q) && ThroughLast(t, q)
    ensures ThroughLast(Put(t, q, k, Map(map[])), q)
  {
    forall i | 0 <= i < |q| && q[i].Idx? ensures ShapeAt(Put(t, q, k, Map(map[])), q[..i]) == List(q[i].i + 1) {
      SubtableShape(t, q, k, q[..i]);
    }
  }

  /** The exact condition for a dotted walk to succeed: every position on the way is a
      table or free. */
  predicate Passable(t: Tree, q: Path, path: seq<string>) {
    forall i :: 1 <= i <= |path| ==> ShapeAt(t, q + Keys(path[..i])) in {Absent, Table}
  }

  /** The condition below the first position of the way. */
  lemma PassableTail(t: Tree, q: Path, t1: Tree, path: seq<string>)
    requires path != [] && ShapeAt(t, q + [Key(path[0])]) in {Absent, Table}
    requires forall r :: r != q + [Key(path[0])] ==> ShapeAt(t1, r) == ShapeAt(t, r)
    ensures Passable(t, q, path) <==> Passable(t1, q + [Key(path[0])], path[1..])
  {
    hide ShapeAt;
    var next := q + [Key(path[0])];
    forall i | 1 <= i < |path|
      ensures q + Keys(path[..i + 1]) == next + Keys(path[1..][..i])
      ensures ShapeAt(t1, next + Keys(path[1..][..i])) == ShapeAt(t, q + Keys(path[..i + 1]))
    {
      assert path[..i + 1] == [path[0]] + path[1..][..i];
      assert |next + Keys(path[1..][..i])| > |next|;
    }
    if Passable(t1, next, path[1..]) {
      forall i | 1 <= i <= |path| ensures ShapeAt(t, q + Keys(path[..i])) in {Absent, Table} {
        if i == 1 {
          assert path[..1] == [path[0]] && Keys([path[0]]) == [Key(path[0])];
        } else {
          assert ShapeAt(t1, next + Keys(path[1..][..i - 1])) in {Absent, Table};
          assert q + Keys(path[..i - 1 + 1]) == next + Keys(path[1..][..i - 1]);
        }
      }
    }
  }

  lemma {:induction false} WalkSucceeds(t: Tree, q: Path, path: seq<string>)
    requires IsTable(t, q)
    ensures Walk(t, q, path, false).Ok? <==> Passable(t, q, path)
    decreases |path|
  {
    if path == [] {
    } else {
      var m := TableAt(t, q);
      var next := q + [Key(path[0])];
      GetAppend(t, q, [Key(path[0])]);
      GetKey(Map(m), path[0]);
      if path[0] !in m {
        var t1 := Put(t, q, path[0], Map(map[]));
        Grow(t, q, path[0], Map(map[]));
        forall r | r != next ensures ShapeAt(t1, r) == ShapeAt(t, r) {
          SubtableShape(t, q, path[0], r);
        }
        hide Passable;
        PassableTail(t, q, t1, path);
        WalkSucceeds(t1, next, path[1..]);
      } else if m[path[0]].Map? {
        hide Passable;
        PassableTail(t, q, t, path);
        WalkSucceeds(t, next, path[1..]);
      } else {
        assert path[..1] == [path[0]] && Keys([path[0]]) == [Key(path[0])];
        assert ShapeAt(t, q + Keys(path[..1])) !in {Absent, Table};
      }
    }
  }

  // ----- when a header path can be walked -----

  /** One step of the way from `q` to `p`: a key finds nothing, a table, or the list that the
      next step enters; an index follows a key and enters the last element of a list, and that
      element is a table. */
  predicate StepLeads(t: Tree, q: Path, p: Path, i: nat)
    requires i < |p|
  {
    match p[i]
    case Key(_) => (i + 1 < |p| && p[i + 1].Idx?) || ShapeAt(t, p[..i + 1]) in {Absent, Table}
    case Idx(n) => |q| < i && p[i - 1].Key? && ShapeAt(t, p[..i]) == List(n + 1) && ShapeAt(t, p[..i + 1]) == Table
  }

  /** The position `p` can be reached from the table at `q`, as the tree stands. */
  predicate Leads(t: Tree, q: Path, p: Path) {
    IsPrefix(q, p) && forall i :: |q| <= i < |p| ==> StepLeads(t, q, p, i)
  }

  /** The way may be cut at a position that is no list: what is below decides the rest. */
  lemma LeadsOn(t: Tree, q: Path, t1: Tree, q1: Path, p: Path)
    requires IsPrefix(q, q1) && IsPrefix(q1, p)
    requires forall i :: |q| <= i < |q1| ==> StepLeads(t, q, p, i)
    requires !ShapeAt(t, q1).List?
    requires forall i :: |q1| < i <= |p| ==> ShapeAt(t, p[..i]) == ShapeAt(t1, p[..i])
    ensures Leads(t, q, p) <==> Leads(t1, q1, p)
  {
    hide ShapeAt;
    PrefixTransitive(q, q1, p);
    forall i | |q1| <= i < |p| ensures StepLeads(t, q, p, i) <==> StepLeads(t1, q1, p, i) {
    }
  }

  lemma CreatedLeads(t: Tree, q: Path, k: string, p: Path)
    requires IsTable(t, q) && k !in TableAt(t, q) && IsPrefix(q + [Key(k)], p)
    ensures Leads(t, q, p) <==> Leads(Put(t, q, k, Map(map[])), q + [Key(k)], p)
  {
    var next := q + [Key(k)];
    var t1 := Put(t, q, k, Map(map[]));
    SubtableShape(t, q, k, next);
    StepOfPrefix(q, Key(k), p);
    assert StepLeads(t, q, p, |q|);
    forall i | |next| < i <= |p| ensures ShapeAt(t, p[..i]) == ShapeAt(t1, p[..i]) {
      SubtableShape(t, q, k, p[..i]);
    }
    LeadsOn(t, q, t1, next, p);
  }

  lemma TableLeads(t: Tree, q: Path, k: string, p: Path)
    requires IsPrefix(q + [Key(k)], p) && ShapeAt(t, q + [Key(k)]) == Table
    ensures Leads(t, q, p) <==> Leads(t, q + [Key(k)], p)
  {
    StepOfPrefix(q, Key(k), p);
    assert StepLeads(t, q, p, |q|);
    LeadsOn(t, q, t, q + [Key(k)], p);
  }

  lemma ElementLeads(t: Tree, q: Path, k: string, n: nat, p: Path)
    requires IsPrefix(q + [Key(k)] + [Idx(n)], p)
    requires ShapeAt(t, q + [Key(k)]) == List(n + 1) && ShapeAt(t, q + [Key(k)] + [Idx(n)]) == Table
    ensures Leads(t, q, p) <==> Leads(t, q + [Key(k)] + [Idx(n)], p)
  {
    var next := q + [Key(k)];
    StepOfPrefix(next, Idx(n), p);
    StepOfPrefix(q, Key(k), p);
    assert StepLeads(t, q, p, |q|) && StepLeads(t, q, p, |q| + 1);
    LeadsOn(t, q, t, next + [Idx(n)], p);
  }

  lemma StepOfPrefix(q: Path, s: Step, p: Path)
    requires IsPrefix(q + [s], p)
    ensures IsPrefix(q, q + [s]) && IsPrefix(q, p) && |q| < |p| && p[|q|] == s && p[..|q| + 1] == q + [s]
  {
    assert p[..|q| + 1][|q|] == s;
    assert (q + [s])[..|q|] == q;
    PrefixTransitive(q, q + [s], p);
  }

  /** Where a walk into arrays of tables succeeds, the tree leads to where it ends. */
  lemma {:induction false} WalkLeads(t: Tree, q: Path, path: seq<string>)
    requires IsTable(t, q) && Walk(t, q, path, true).Ok?
    ensures Leads(t, q, Walk(t, q, path, true).value.at)
    decreases |path|
  {
    if path == [] {
    } else {
      var m := TableAt(t, q);
      var k := path[0];
      var next := q + [Key(k)];
      var p := Walk(t, q, path, true).value.at;
      GetAppend(t, q, [Key(k)]);
      GetKey(Map(m), k);
      if k !in m {
        var t1 := Put(t, q, k, Map(map[]));
        Grow(t, q, k, Map(map[]));
        WalkShape(t1, next, path[1..], true, []);
        CreatedLeads(t, q, k, p);
        WalkLeads(t1, next, path[1..]);
      } else {
        match m[k] {
          case Map(_) =>
            WalkShape(t, next, path[1..], true, []);
            TableLeads(t, q, k, p);
            WalkLeads(t, next, path[1..]);
          case Arr(xs) =>
            var n := |xs| - 1;
            GetAppend(t, next, [Idx(n)]);
            WalkShape(t, next + [Idx(n)], path[1..], true, []);
            ElementLeads(t, q, k, n, p);
            WalkLeads(t, next + [Idx(n)], path[1..]);
        }
      }
    }
  }

  /** ... and where the tree leads to a position, the walk of the names on the way ends there. */
  lemma {:induction false} LeadsWalk(t: Tree, q: Path, p: Path)
    requires IsTable(t, q) && Leads(t, q, p)
    ensures Walk(t, q, NamesOn(p[|q|..]), true).Ok?
    ensures Walk(t, q, NamesOn(p[|q|..]), true).value.at == p
    decreases |p| - |q|
  {
    if |p| == |q| {
      assert p[|q|..] == [] && p == q;
    } else {
      assert StepLeads(t, q, p, |q|);
      var k := p[|q|].k;
      var m := TableAt(t, q);
      var next := q + [Key(k)];
      TakeOneMore(p, |q|);
      NamesFrom(p, |q|);
      assert NamesOn(p[|q|..])[1..] == NamesOn(p[|q| + 1..]);
      GetAppend(t, q, [Key(k)]);
      GetKey(Map(m), k);
      if k !in m {
        Grow(t, q, k, Map(map[]));
        CreatedLeads(t, q, k, p);
        LeadsWalk(Put(t, q, k, Map(map[])), next, p);
      } else if m[k].Map? {
        TableLeads(t, q, k, p);
        LeadsWalk(t, next, p);
      } else {
        LeadsWalkElement(t, q, p);
      }
    }
  }

  lemma {:induction false} LeadsWalkElement(t: Tree, q: Path, p: Path)
    requires IsTable(t, q) && Leads(t, q, p) && |q| < |p| && p[|q|].Key?
    requires var k := p[|q|].k; k in TableAt(t, q) && !TableAt(t, q)[k].Map?
    ensures Walk(t, q, NamesOn(p[|q|..]), true).Ok?
    ensures Walk(t, q, NamesOn(p[|q|..]), true).value.at == p
    decreases |p| - |q|, 0
  {
    var k := p[|q|].k;
    var next := q + [Key(k)];
    GetAppend(t, q, [Key(k)]);
    GetKey(Map(TableAt(t, q)), k);
    TakeOneMore(p, |q|);
    assert StepLeads(t, q, p, |q|);
    assert StepLeads(t, q, p, |q| + 1);
    var n := p[|q| + 1].i;
    TakeOneMore(p, |q| + 1);
    ElementLeads(t, q, k, n, p);
    assert ShapeAt(t, next) == List(n + 1) && ShapeAt(t, next + [Idx(n)]) == Table;
    hide Leads;
    hide StepLeads;
    hide Walk;
    hide Get;
    LeadsWalk(t, next + [Idx(n)], p);
    NamesFrom(p, |q|);
    NamesFrom(p, |q| + 1);
    var rest := NamesOn(p[|q| + 2..]);
    assert [] + rest == rest;
    WalkElement(t, q, k, n, rest);
  }

  /** A walk into an array of tables goes on in its last element. */
  lemma WalkElement(t: Tree, q: Path, k: string, n: nat, path: seq<string>)
    requires IsTable(t, q) && ShapeAt(t, q + [Key(k)]) == List(n + 1)
    requires ShapeAt(t, q + [Key(k)] + [Idx(n)]) == Table
    ensures Walk(t, q, [k] + path, true) == Walk(t, q + [Key(k)] + [Idx(n)], path, true)
  {
    var next := q + [Key(k)];
    GetAppend(t, q, [Key(k)]);
    GetKey(Map(TableAt(t, q)), k);
    GetAppend(t, next, [Idx(n)]);
    assert [Idx(n)][1..] == [];
    assert ([k] + path)[1..] == path;
  }

  lemma TakeOneMore<T>(p: seq<T>, i: nat)
    requires i < |p|
    ensures p[..i + 1] == p[..i] + [p[i]]
  {
  }

  lemma NamesFrom(p: Path, i: nat)
    requires i < |p|
    ensures NamesOn(p[i..]) == (if p[i].Key? then [p[i].k] else []) + NamesOn(p[i + 1..])
  {
    assert p[i..][1..] == p[i + 1..];
  }

  /** The exact condition for a header path: the tree leads from the table at `q` along its
      names; and then the walk ends where the tree leads, which is one position only. */
  lemma CrossingSucceeds(t: Tree, q: Path, path: seq<string>)
    requires IsTable(t, q) && ThroughLast(t, q)
    ensures Walk(t, q, path, true).Ok? <==> exists p :: Leads(t, q, p) && NamesOn(p[|q|..]) == path
    ensures forall p :: Leads(t, q, p) && NamesOn(p[|q|..]) == path ==> Walk(t, q, path, true).value.at == p
  {
    forall p | Leads(t, q, p) && NamesOn(p[|q|..]) == path
      ensures Walk(t, q, path, true).Ok? && Walk(t, q, path, true).value.at == p
    {
      LeadsWalk(t, q, p);
    }
    if Walk(t, q, path, true).Ok? {
      var p := Walk(t, q, path, true).value.at;
      WalkLeads(t, q, path);
      WalkDestination(t, q, path, true);
      assert p == q + p[|q|..];
      NamesAppend(q, p[|q|..]);
      assert NamesOn(p)[|NamesOn(q)|..] == path;
    }
  }
}
