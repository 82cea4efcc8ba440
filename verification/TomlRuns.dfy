/** Whole runs of statements: nothing is ever overwritten, and the scalars of the final
    tree are exactly those the key/value statements wrote. */
module TomlRuns {
  import opened Prelude
  import opened TomlTree
  import opened TomlEffects

  predicate AllProper(ss: seq<Stmt>) {
    forall i :: 0 <= i < |ss| ==> Proper(ss[i])
  }

  function Exec(d: Doc, ss: seq<Stmt>): (r: Result<Doc, Kind>)
    requires Ready(d) && AllProper(ss)
    ensures r.Ok? ==> Ready(r.value)
    decreases |ss|
  {
    if ss == [] then Ok(d)
    else
      match Apply(d, ss[0])
      case Err(e) => Err(e)
      case Ok(d1) =>
        ApplyReady(d, ss[0]);
        Exec(d1, ss[1..])
  }

  lemma {:induction false} ExecAppend(d: Doc, a: seq<Stmt>, b: seq<Stmt>)
    requires Ready(d) && AllProper(a) && AllProper(b)
    ensures Exec(d, a + b) == match Exec(d, a) case Err(e) => Err(e) case Ok(d1) => Exec(d1, b)
    decreases |a|
  {
    if a == [] {
      assert a + b == b;
    } else {
      assert (a + b)[0] == a[0] && (a + b)[1..] == a[1..] + b;
      match Apply(d, a[0]) {
        case Err(_) =>
        case Ok(d1) =>
          ApplyReady(d, a[0]);
          ExecAppend(d1, a[1..], b);
      }
    }
  }

  /** A value and the position a run gave it. */
  datatype Placing = Placing(base: Path, v: Tree)

  predicate Provides(pl: Placing, r: Path, x: Scalar) {
    IsPrefix(pl.base, r) && ShapeAt(pl.v, r[|pl.base|..]) == Scal(x)
  }

  /** Where the key/value statements of a run put their values, in order. */
  function Placed(d: Doc, ss: seq<Stmt>): seq<Placing>
    requires Ready(d) && AllProper(ss) && Exec(d, ss).Ok?
    decreases |ss|
  {
    if ss == [] then []
    else
      ApplyReady(d, ss[0]);
      var d1 := Apply(d, ss[0]).value;
      (if ss[0].KeyVal? then [Placing(d.cur + Keys(ss[0].path), ss[0].v)] else []) + Placed(d1, ss[1..])
  }

  /** One statement: old scalars stay, and only a key/value statement adds scalars. */
  lemma ApplyScalars(d: Doc, s: Stmt, r: Path, x: Scalar)
    requires Ready(d) && Proper(s) && Apply(d, s).Ok?
    ensures ShapeAt(Apply(d, s).value.tree, r) == Scal(x) <==>
            ShapeAt(d.tree, r) == Scal(x) || (s.KeyVal? && Provides(Placing(d.cur + Keys(s.path), s.v), r, x))
    ensures s.KeyVal? && IsPrefix(d.cur + Keys(s.path), r) ==> ShapeAt(d.tree, r) == Absent
  {
    match s
    case Header(path) => HeaderEffect(d, path, r);
    case ArrayHeader(path) => ArrayEffect(d, path, r);
    case KeyVal(path, v) =>
      KeyEffect(d, path, v, r);
      if IsPrefix(d.cur + Keys(path), r) { AbsentBelow(d.tree, d.cur + Keys(path), r); }
  }

  /** Conservation over a run: the scalars of the final tree are those of the first tree
      and those the key/value statements provide. */
  lemma {:induction false} RunScalars(d: Doc, ss: seq<Stmt>, r: Path, x: Scalar)
    requires Ready(d) && AllProper(ss) && Exec(d, ss).Ok?
    ensures ShapeAt(Exec(d, ss).value.tree, r) == Scal(x) <==>
            ShapeAt(d.tree, r) == Scal(x) || exists pl :: pl in Placed(d, ss) && Provides(pl, r, x)
    decreases |ss|
  {
    if ss == [] {
    } else {
      ApplyReady(d, ss[0]);
      ApplyScalars(d, ss[0], r, x);
      RunScalars(Apply(d, ss[0]).value, ss[1..], r, x);
    }
  }

  /** ... and the contributions are disjoint: no position gets a scalar twice, and none
      that was there before. */
  lemma {:induction false} RunDisjoint(d: Doc, ss: seq<Stmt>, r: Path, x: Scalar, y: Scalar)
    requires Ready(d) && AllProper(ss) && Exec(d, ss).Ok?
    ensures forall i, j :: 0 <= i < j < |Placed(d, ss)| ==>
              !(Provides(Placed(d, ss)[i], r, x) && Provides(Placed(d, ss)[j], r, y))
    ensures ShapeAt(d.tree, r) == Scal(x) ==> forall pl :: pl in Placed(d, ss) ==> !Provides(pl, r, y)
    decreases |ss|
  {
    if ss == [] {
    } else {
      ApplyReady(d, ss[0]);
      var d1 := Apply(d, ss[0]).value;
      ApplyScalars(d, ss[0], r, x);
      RunDisjoint(d1, ss[1..], r, x, y);
      var rest := Placed(d1, ss[1..]);
      if ss[0].KeyVal? {
        ApplyScalars(d, ss[0], r, y);
        var all := Placed(d, ss);
        assert all == [Placing(d.cur + Keys(ss[0].path), ss[0].v)] + rest;
        forall i, j | 0 <= i < j < |all| ensures !(Provides(all[i], r, x) && Provides(all[j], r, y)) {
          if i > 0 {
            assert all[i] == rest[i - 1] && all[j] == rest[j - 1];
          } else if Provides(all[0], r, x) {
            assert ShapeAt(d1.tree, r) == Scal(x);
            assert all[j] in rest;
          }
        }
      }
    }
  }

  /** Positions never lose what they hold: a scalar or table stays, a list only grows. */
  predicate Kept(before: Shape, after: Shape) {
    match before
    case Absent => true
    case List(n) => after.List? && after.len >= n
    case _ => after == before
  }

  lemma {:induction false} RunKeeps(d: Doc, ss: seq<Stmt>, r: Path)
    requires Ready(d) && AllProper(ss) && Exec(d, ss).Ok?
    ensures Kept(ShapeAt(d.tree, r), ShapeAt(Exec(d, ss).value.tree, r))
    ensures d.explicit <= Exec(d, ss).value.explicit
    decreases |ss|
  {
    if ss == [] {
    } else {
      ApplyReady(d, ss[0]);
      match ss[0] {
        case Header(path) => HeaderEffect(d, path, r);
        case ArrayHeader(path) => ArrayEffect(d, path, r);
        case KeyVal(path, v) =>
          KeyEffect(d, path, v, r);
          if IsPrefix(d.cur + Keys(path), r) { AbsentBelow(d.tree, d.cur + Keys(path), r); }
      }
      RunKeeps(Apply(d, ss[0]).value, ss[1..], r);
    }
  }

  lemma {:induction false} RunUniform(d: Doc, ss: seq<Stmt>)
    requires Ready(d) && AllProper(ss) && Exec(d, ss).Ok? && Uniform(d.tree)
    ensures Uniform(Exec(d, ss).value.tree)
    decreases |ss|
  {
    if ss == [] {
    } else {
      ApplyReady(d, ss[0]);
      ApplyUniform(d, ss[0]);
      RunUniform(Apply(d, ss[0]).value, ss[1..]);
    }
  }

  // ----- repeated headers -----

  /** The set of headers already seen is the set of headers the run contains. */
  lemma {:induction false} ExplicitHistory(d: Doc, ss: seq<Stmt>, key: string)
    requires Ready(d) && AllProper(ss) && Exec(d, ss).Ok?
    ensures key in Exec(d, ss).value.explicit <==>
            key in d.explicit || exists s :: s in ss && s.Header? && JoinNul(s.path) == key
    decreases |ss|
  {
    if ss == [] {
    } else {
      ApplyReady(d, ss[0]);
      match ss[0] {
        case Header(path) =>
        case ArrayHeader(path) => ArrayEffect(d, path, []);
        case KeyVal(path, v) => KeyEffect(d, path, v, []);
      }
      ExplicitHistory(Apply(d, ss[0]).value, ss[1..], key);
    }
  }

  lemma ExecOneMore(ss: seq<Stmt>, s: Stmt)
    requires AllProper(ss) && Proper(s) && Exec(EMPTY, ss).Ok?
    ensures Exec(EMPTY, ss + [s]) == Apply(Exec(EMPTY, ss).value, s)
  {
    var d := Exec(EMPTY, ss).value;
    ExecAppend(EMPTY, ss, [s]);
    assert [s][1..] == [];
    if Apply(d, s).Ok? {
      ApplyReady(d, s);
      assert Exec(d, [s]) == Exec(Apply(d, s).value, [s][1..]);
    }
  }

  /** The exact condition for a [table] header after an accepted run: no earlier header
      has the same joined path, and along the path every key finds nothing, a table, or a
      list whose last element is a table, in which the path goes on. */
  lemma HeaderCondition(ss: seq<Stmt>, path: seq<string>)
    requires AllProper(ss) && path != [] && Exec(EMPTY, ss).Ok?
    ensures Exec(EMPTY, ss + [Header(path)]).Ok? <==>
            && (forall s :: s in ss && s.Header? ==> JoinNul(s.path) != JoinNul(path))
            && exists q :: Leads(Exec(EMPTY, ss).value.tree, [], q) && NamesOn(q) == path
  {
    ExecOneMore(ss, Header(path));
    TableCondition(Exec(EMPTY, ss).value, path);
    ExplicitHistory(EMPTY, ss, JoinNul(path));
  }

  /** The exact condition for an [[array]] header after an accepted run: the same for the front
      of its path, and the array is absent, an empty list, or a list that ends in a table. */
  lemma ArrayHeaderCondition(ss: seq<Stmt>, path: seq<string>)
    requires AllProper(ss) && path != [] && Exec(EMPTY, ss).Ok?
    ensures Exec(EMPTY, ss + [ArrayHeader(path)]).Ok? <==>
            ArrayFits(Exec(EMPTY, ss).value.tree, path[..|path| - 1], path[|path| - 1])
  {
    ExecOneMore(ss, ArrayHeader(path));
    ArrayCondition(Exec(EMPTY, ss).value, path);
  }

  /** A [table] header can be given once in a document. Opening a new element of an array
      of tables in between does not make its sub-table header available again. */
  lemma HeaderOnce(d: Doc, a: seq<Stmt>, path: seq<string>, b: seq<Stmt>)
    requires Ready(d) && AllProper(a) && AllProper(b) && path != []
    ensures Exec(d, a + [Header(path)] + b + [Header(path)]).Err?
  {
    var h := [Header(path)];
    ExecAppend(d, a + h + b, h);
    if Exec(d, a + h + b).Ok? {
      ExecAppend(d, a + h, b);
      ExecAppend(d, a, h);
      var d1 := Exec(d, a).value;
      var d2 := Exec(d, a + h).value;
      assert Exec(d1, h) == Apply(d1, h[0]);
      assert JoinNul(path) in d2.explicit;
      RunKeeps(d2, b, []);
    }
  }

  // ----- headers at the top of the document -----

  const NO_ENTRIES: Tree := Map(map[])

  /** `[k]` for a fresh name. */
  lemma TopTable(m: map<string, Tree>, cur: Path, explicit: set<string>, k: string)
    requires k !in m && k !in explicit
    ensures OpenTable(Doc(Map(m), cur, explicit), [k])
         == Ok(Doc(Map(m[k := NO_ENTRIES]), [Key(k)], explicit + {k}))
  {
    var t := Put(Map(m), [], k, NO_ENTRIES);
    assert t == Map(m[k := NO_ENTRIES]);
    assert [k][1..] == [];
    assert [] + [Key(k)] == [Key(k)];
    GetKey(t, k);
    assert Walk(t, [Key(k)], [], true) == Ok(Spot(t, [Key(k)]));
    assert JoinNul([k]) == k;
  }

  /** `[[k]]` for a fresh name or an array of tables. */
  lemma TopArray(m: map<string, Tree>, cur: Path, explicit: set<string>, k: string, xs: seq<Tree>)
    requires if k in m then m[k] == Arr(xs) && xs != [] && xs[|xs| - 1].Map? else xs == []
    ensures OpenArray(Doc(Map(m), cur, explicit), [k])
         == Ok(Doc(Map(m[k := Arr(xs + [NO_ENTRIES])]), [Key(k), Idx(|xs|)], explicit))
  {
    assert [k][..0] == [];
    assert Walk(Map(m), [], [], true) == Ok(Spot(Map(m), []));
    assert [] + [Key(k), Idx(|xs|)] == [Key(k), Idx(|xs|)];
  }

  /** `[k.j]` for a fresh name j in the last element of the array of tables k. */
  lemma TopSubtable(m: map<string, Tree>, cur: Path, explicit: set<string>, k: string, j: string)
    requires k in m && m[k] == Arr([NO_ENTRIES]) && JoinNul([k, j]) !in explicit
    ensures OpenTable(Doc(Map(m), cur, explicit), [k, j])
         == Ok(Doc(Map(m[k := Arr([Map(map[j := NO_ENTRIES])])]), [Key(k), Idx(0), Key(j)],
                   explicit + {JoinNul([k, j])}))
  {
    var t := Map(m);
    var q := [Key(k), Idx(0)];
    GetKey(t, k);
    assert [Key(k)] + [Idx(0)] == q && [] + [Key(k)] == [Key(k)];
    GetAppend(t, [Key(k)], [Idx(0)]);
    assert Get(m[k], [Idx(0)]) == Some(NO_ENTRIES) by { assert [Idx(0)][1..] == []; }
    assert [k, j][1..] == [j] && [j][1..] == [];
    assert Walk(t, [], [k, j], true) == Walk(t, q, [j], true);
    var t1 := Put(t, q, j, NO_ENTRIES);
    assert q[1..] == [Idx(0)] && [Idx(0)][1..] == [];
    assert Put(NO_ENTRIES, [], j, NO_ENTRIES) == Map(map[j := NO_ENTRIES]);
    assert Put(m[k], [Idx(0)], j, NO_ENTRIES) == Arr([Map(map[j := NO_ENTRIES])]) by {
      assert [NO_ENTRIES][0 := Map(map[j := NO_ENTRIES])] == [Map(map[j := NO_ENTRIES])];
    }
    assert q + [Key(j)] == [Key(k), Idx(0), Key(j)];
    Grow(t, q, j, NO_ENTRIES);
    assert Walk(t, q, [j], true) == Walk(t1, q + [Key(j)], [], true);
  }

  lemma TwoElements(P: string, C: string)
    ensures var d := Doc(Map(map[P := Arr([Map(map[C := NO_ENTRIES]), NO_ENTRIES])]), [Key(P), Idx(1)],
                         {JoinNul([P, C])});
            Exec(EMPTY, [ArrayHeader([P]), Header([P, C]), ArrayHeader([P])]) == Ok(d)
  {
    var x := JoinNul([P, C]);
    var first := Map(map[C := NO_ENTRIES]);
    TopArray(map[], [], {}, P, []);
    assert [] + [NO_ENTRIES] == [NO_ENTRIES];
    var m1 := map[P := Arr([NO_ENTRIES])];
    TopSubtable(m1, [Key(P), Idx(0)], {}, P, C);
    var m2 := map[P := Arr([first])];
    assert m1[P := Arr([first])] == m2;
    TopArray(m2, [Key(P), Idx(0), Key(C)], {} + {x}, P, [first]);
    assert [first] + [NO_ENTRIES] == [first, NO_ENTRIES];
    var m3 := map[P := Arr([first, NO_ENTRIES])];
    assert m2[P := Arr([first, NO_ENTRIES])] == m3;
    assert {} + {x} == {x};
    Chain3(EMPTY, ArrayHeader([P]), Header([P, C]), ArrayHeader([P]), Doc(Map(m1), [Key(P), Idx(0)], {}),
           Doc(Map(m2), [Key(P), Idx(0), Key(C)], {} + {x}), Doc(Map(m3), [Key(P), Idx(1)], {} + {x}));
  }

  /** The documented layout with a claims table under each of two array elements: it is
      accepted up to the second claims header and rejected there; a dotted key in its
      place is accepted. */
  lemma SecondClaimsTableRejected()
    ensures var p := ArrayHeader(["personas"]);
            var c := Header(["personas", "claims"]);
            && Exec(EMPTY, [p, c, p]).Ok?
            && Exec(EMPTY, [p, c, p, c]).Err?
            && Exec(EMPTY, [p, c, p, KeyVal(["claims", "level"], Leaf(Int(5)))]).Ok?
  {
    var p, c := ArrayHeader(["personas"]), Header(["personas", "claims"]);
    HeaderOnce(EMPTY, [p], c.path, [p]);
    assert [p] + [c] + [p] + [c] == [p, c, p, c];
    ClaimsByKey("personas", "claims", KeyVal(["claims", "level"], Leaf(Int(5))));
  }

  /** Two elements, and a key set in the second. */
  lemma ClaimsByKey(P: string, C: string, k: Stmt)
    requires Proper(k) && k.KeyVal?
    ensures var p, c := ArrayHeader([P]), Header([P, C]);
            Exec(EMPTY, [p, c, p]).Ok? && Exec(EMPTY, [p, c, p, k]).Ok?
  {
    var p, c := ArrayHeader([P]), Header([P, C]);
    TwoElements(P, C);
    var d := Exec(EMPTY, [p, c, p]).value;
    hide Exec;
    GetKey(d.tree, P);
    GetAppend(d.tree, [Key(P)], [Idx(1)]);
    assert [Key(P)] + [Idx(1)] == d.cur && [Idx(1)][1..] == [];
    KeyIntoFreshElement(d, k);
    ExecOneMore([p, c, p], k);
    assert [p, c, p] + [k] == [p, c, p, k];
  }

  /** Any key can be set in a table that has no entry yet. */
  lemma KeyIntoFreshElement(d: Doc, s: Stmt)
    requires Ready(d) && Proper(s) && s.KeyVal? && Get(d.tree, d.cur) == Some(NO_ENTRIES)
    ensures Apply(d, s).Ok?
  {
    KeyCondition(d, s.path, s.v);
    forall i | 1 <= i <= |s.path| ensures ShapeAt(d.tree, d.cur + Keys(s.path[..i])) == Absent {
      GetAppend(d.tree, d.cur, Keys(s.path[..i]));
    }
    assert s.path[..|s.path|] == s.path;
  }

  lemma Chain3(d: Doc, a: Stmt, b: Stmt, c: Stmt, d1: Doc, d2: Doc, d3: Doc)
    requires Ready(d) && Proper(a) && Proper(b) && Proper(c)
    requires Apply(d, a) == Ok(d1)
    requires Ready(d1) ==> Apply(d1, b) == Ok(d2)
    requires Ready(d2) ==> Apply(d2, c) == Ok(d3)
    ensures Ready(d3) && Exec(d, [a, b, c]) == Ok(d3)
  {
    assert [a, b, c][1..] == [b, c] && [b, c][1..] == [c] && [c][1..] == [];
    ApplyReady(d, a);
    ApplyReady(d1, b);
    ApplyReady(d2, c);
    assert Exec(d2, [c]) == Ok(d3);
    assert Exec(d1, [b, c]) == Exec(d2, [c]);
  }
}
