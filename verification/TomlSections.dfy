/** Key/value blocks: when they are accepted, and the table they build. */
module TomlSections {
  import opened Prelude
  import opened TomlTree
  import opened TomlEffects
  import opened TomlRuns

  /** A dotted key with its value. */
  datatype Pair = Pair(path: seq<string>, v: Tree)

  predicate ProperPair(x: Pair) {
    x.path != [] && NoTables(x.v)
  }

  predicate ProperPairs(kvs: seq<Pair>) {
    forall i :: 0 <= i < |kvs| ==> ProperPair(kvs[i])
  }

  function KvStmts(kvs: seq<Pair>): (ss: seq<Stmt>)
    requires ProperPairs(kvs)
    ensures AllProper(ss)
  {
    seq(|kvs|, i requires 0 <= i < |kvs| => KeyVal(kvs[i].path, kvs[i].v))
  }

  predicate Comparable(p: seq<string>, q: seq<string>) {
    IsPrefix(p, q) || IsPrefix(q, p)
  }

  /** No key of the block equals or extends another. */
  predicate PrefixFree(kvs: seq<Pair>) {
    forall i, j :: 0 <= i < j < |kvs| ==> !Comparable(kvs[i].path, kvs[j].path)
  }

  lemma KeysPrefix(a: seq<string>, b: seq<string>)
    ensures IsPrefix(Keys(a), Keys(b)) <==> IsPrefix(a, b)
  {
    if IsPrefix(Keys(a), Keys(b)) {
      forall i | 0 <= i < |a| ensures a[i] == b[i] {
        assert Keys(b)[..|a|][i] == Keys(a)[i];
      }
      assert b[..|a|] == a;
    }
    if IsPrefix(a, b) {
      assert b == a + b[|a|..];
      KeysAppend(a, b[|a|..]);
    }
  }

  /** What a block puts at position `r` of a table that was empty before it. */
  function KvShape(kvs: seq<Pair>, r: Path): Shape {
    if kvs == [] then (if r == [] then Table else Absent)
    else
      var x := kvs[|kvs| - 1];
      var before := KvShape(kvs[..|kvs| - 1], r);
      if IsPrefix(Keys(x.path), r) then ShapeAt(x.v, r[|x.path|..])
      else if before == Absent && IsPrefix(r, Keys(x.path)) then Table
      else before
  }

  /** A prefix-free block puts each value at its key ... */
  lemma {:induction false} KvShapeAtKey(kvs: seq<Pair>, j: nat, r: Path)
    requires PrefixFree(kvs) && j < |kvs| && IsPrefix(Keys(kvs[j].path), r)
    ensures KvShape(kvs, r) == ShapeAt(kvs[j].v, r[|kvs[j].path|..])
  {
    var n := |kvs| - 1;
    if j < n {
      assert kvs[..n][j] == kvs[j];
      KvShapeAtKey(kvs[..n], j, r);
      AtOrAbove(kvs[j].path, kvs[n].path, r);
    }
  }

  /** ... tables above the keys, and nothing else. */
  lemma {:induction false} KvShapeElsewhere(kvs: seq<Pair>, r: Path)
    requires forall j :: 0 <= j < |kvs| ==> !IsPrefix(Keys(kvs[j].path), r)
    ensures KvShape(kvs, r)
         == if r == [] || exists j :: 0 <= j < |kvs| && IsPrefix(r, Keys(kvs[j].path)) then Table else Absent
  {
    if kvs == [] {
    } else {
      var n := |kvs| - 1;
      assert forall j :: 0 <= j < n ==> kvs[..n][j] == kvs[j];
      KvShapeElsewhere(kvs[..n], r);
    }
  }

  /** Two keys at or above one position, or on both sides of it, are comparable. */
  lemma AtOrAbove(p: seq<string>, q: seq<string>, r: Path)
    ensures IsPrefix(Keys(p), r) && (IsPrefix(Keys(q), r) || IsPrefix(r, Keys(q))) ==> Comparable(p, q)
  {
    if IsPrefix(Keys(p), r) {
      if IsPrefix(Keys(q), r) {
        PrefixesComparable(Keys(p), Keys(q), r);
      } else if IsPrefix(r, Keys(q)) {
        PrefixTransitive(Keys(p), r, Keys(q));
      }
    }
    KeysPrefix(p, q);
    KeysPrefix(q, p);
  }

  predicate Fits(kvs: seq<Pair>, path: seq<string>) {
    forall j :: 0 <= j < |kvs| ==> !Comparable(kvs[j].path, path)
  }

  predicate Room(kvs: seq<Pair>, path: seq<string>) {
    && KvShape(kvs, Keys(path)) == Absent
    && forall i :: 1 <= i < |path| ==> KvShape(kvs, Keys(path[..i])) in {Absent, Table}
  }

  lemma FitsHasRoom(kvs: seq<Pair>, path: seq<string>)
    requires path != [] && Fits(kvs, path)
    ensures Room(kvs, path)
  {
    forall i | 1 <= i <= |path|
      ensures KvShape(kvs, Keys(path[..i])) in {Absent, Table}
      ensures forall j :: 0 <= j < |kvs| ==> !IsPrefix(Keys(kvs[j].path), Keys(path[..i]))
    {
      forall j | 0 <= j < |kvs| ensures !IsPrefix(Keys(kvs[j].path), Keys(path[..i])) {
        KeysPrefix(kvs[j].path, path[..i]);
        PrefixOfPrefix(kvs[j].path, path, i);
      }
      KvShapeElsewhere(kvs, Keys(path[..i]));
    }
    assert path[..|path|] == path;
    KvShapeElsewhere(kvs, Keys(path));
    forall j | 0 <= j < |kvs| ensures !IsPrefix(Keys(path), Keys(kvs[j].path)) {
      KeysPrefix(path, kvs[j].path);
    }
  }

  lemma ComparableHasNoRoom(kvs: seq<Pair>, j: nat, path: seq<string>)
    requires ProperPairs(kvs) && PrefixFree(kvs) && path != []
    requires j < |kvs| && Comparable(kvs[j].path, path)
    ensures !Room(kvs, path)
  {
    if l :| 0 <= l < |kvs| && IsPrefix(kvs[l].path, path) {
      var p := kvs[l].path;
      assert path[..|p|] == p;
      KvShapeAtKey(kvs, l, Keys(p));
      assert Keys(p)[|p|..] == [];
      assert KvShape(kvs, Keys(p)) == ShapeOf(kvs[l].v);
      if |p| == |path| { assert p == path; }
    } else {
      forall l | 0 <= l < |kvs| ensures !IsPrefix(Keys(kvs[l].path), Keys(path)) {
        KeysPrefix(kvs[l].path, path);
      }
      KeysPrefix(path, kvs[j].path);
      KvShapeElsewhere(kvs, Keys(path));
    }
  }

  lemma PrefixOfPrefix(p: seq<string>, q: seq<string>, i: nat)
    requires i <= |q|
    ensures IsPrefix(p, q[..i]) ==> IsPrefix(p, q)
  {
    if IsPrefix(p, q[..i]) {
      assert q[..|p|] == q[..i][..|p|];
    }
  }

  /** The exact condition for a block of key/value statements in a table that has no
      entries, and its whole effect: the table at `d.cur` becomes what KvShape says and
      the rest of the document is untouched. */
  lemma {:induction false} KvExec(d: Doc, kvs: seq<Pair>, r: Path)
    requires Ready(d) && Get(d.tree, d.cur) == Some(NO_ENTRIES) && ProperPairs(kvs)
    ensures Exec(d, KvStmts(kvs)).Ok? <==> PrefixFree(kvs)
    ensures PrefixFree(kvs) ==>
              var d' := Exec(d, KvStmts(kvs)).value;
              && d'.cur == d.cur && d'.explicit == d.explicit
              && ShapeAt(d'.tree, r)
                 == if IsPrefix(d.cur, r) then KvShape(kvs, r[|d.cur|..]) else ShapeAt(d.tree, r)
  {
    if kvs == [] {
      if IsPrefix(d.cur, r) {
        var s := r[|d.cur|..];
        assert r == d.cur + s;
        GetAppend(d.tree, d.cur, s);
      }
    } else {
      hide Get;
      hide Put;
      hide Walk;
      hide KvShape;
      hide PrefixFree;
      hide AddKey;
      hide ShapeAt;
      hide Exec;
      var n := |kvs| - 1;
      var x := kvs[n];
      assert KvStmts(kvs) == KvStmts(kvs[..n]) + [KeyVal(x.path, x.v)];
      ExecAppend(d, KvStmts(kvs[..n]), [KeyVal(x.path, x.v)]);
      KvExec(d, kvs[..n], r);
      FrontPrefixFree(kvs);
      if PrefixFree(kvs[..n]) {
        var d1 := Exec(d, KvStmts(kvs[..n])).value;
        SingleStmt(d1, KeyVal(x.path, x.v));
        forall p
          ensures ShapeAt(d1.tree, p)
               == if IsPrefix(d.cur, p) then KvShape(kvs[..n], p[|d.cur|..]) else ShapeAt(d.tree, p)
        {
          KvExec(d, kvs[..n], p);
        }
        KvLast(d, d1, kvs, r);
      }
    }
  }

  lemma FrontPrefixFree(kvs: seq<Pair>)
    requires ProperPairs(kvs) && kvs != []
    ensures ProperPairs(kvs[..|kvs| - 1]) && (PrefixFree(kvs) ==> PrefixFree(kvs[..|kvs| - 1]))
  {
  }

  /** The last statement of a block, after the others. */
  lemma KvLast(d: Doc, d1: Doc, kvs: seq<Pair>, r: Path)
    requires kvs != [] && ProperPairs(kvs) && PrefixFree(kvs[..|kvs| - 1])
    requires IsTable(d.tree, d.cur) && Ready(d1) && d1.cur == d.cur
    requires forall p :: ShapeAt(d1.tree, p)
                         == if IsPrefix(d.cur, p) then KvShape(kvs[..|kvs| - 1], p[|d.cur|..]) else ShapeAt(d.tree, p)
    ensures var x := kvs[|kvs| - 1]; AddKey(d1, x.path, x.v).Ok? <==> PrefixFree(kvs)
    ensures PrefixFree(kvs) ==>
              var x := kvs[|kvs| - 1];
              var d' := AddKey(d1, x.path, x.v).value;
              && d'.cur == d.cur && d'.explicit == d1.explicit
              && ShapeAt(d'.tree, r)
                 == if IsPrefix(d.cur, r) then KvShape(kvs, r[|d.cur|..]) else ShapeAt(d.tree, r)
  {
    hide AddKey;
    hide ShapeAt;
    hide KvShape;
    var n := |kvs| - 1;
    var x := kvs[n];
    KvFits(d, d1, kvs);
    FitsIsPrefixFree(kvs);
    if AddKey(d1, x.path, x.v).Ok? {
      KeyEffect(d1, x.path, x.v, r);
      RelativePosition(d.cur, Keys(x.path), r);
      KvStepShape(d, d1, kvs, r);
    }
  }

  /** It is accepted exactly if it fits the others. */
  lemma KvFits(d: Doc, d1: Doc, kvs: seq<Pair>)
    requires kvs != [] && ProperPairs(kvs) && PrefixFree(kvs[..|kvs| - 1]) && Ready(d1) && d1.cur == d.cur
    requires forall p :: ShapeAt(d1.tree, p)
                         == if IsPrefix(d.cur, p) then KvShape(kvs[..|kvs| - 1], p[|d.cur|..]) else ShapeAt(d.tree, p)
    ensures var x := kvs[|kvs| - 1]; AddKey(d1, x.path, x.v).Ok? <==> Fits(kvs[..|kvs| - 1], x.path)
  {
    hide AddKey;
    hide ShapeAt;
    hide KvShape;
    hide PrefixFree;
    hide Comparable;
    var n := |kvs| - 1;
    var x := kvs[n];
    if Fits(kvs[..n], x.path) { FitsHasRoom(kvs[..n], x.path); }
    if j :| 0 <= j < n && Comparable(kvs[..n][j].path, x.path) { ComparableHasNoRoom(kvs[..n], j, x.path); }
    forall i | 1 <= i <= |x.path|
      ensures ShapeAt(d1.tree, d.cur + Keys(x.path[..i])) == KvShape(kvs[..n], Keys(x.path[..i]))
    {
      var p := d.cur + Keys(x.path[..i]);
      assert p[|d.cur|..] == Keys(x.path[..i]);
    }
    assert x.path[..|x.path|] == x.path;
    KeyCondition(d1, x.path, x.v);
  }

  lemma KvStepShape(d: Doc, d1: Doc, kvs: seq<Pair>, r: Path)
    requires kvs != [] && IsTable(d.tree, d.cur)
    requires ShapeAt(d1.tree, r)
          == if IsPrefix(d.cur, r) then KvShape(kvs[..|kvs| - 1], r[|d.cur|..]) else ShapeAt(d.tree, r)
    ensures var x := kvs[|kvs| - 1];
            var base := d.cur + Keys(x.path);
            var after := if IsPrefix(base, r) then ShapeAt(x.v, r[|base|..])
                         else if ShapeAt(d1.tree, r) == Absent && IsPrefix(r, base) then Table
                         else ShapeAt(d1.tree, r);
            after == if IsPrefix(d.cur, r) then KvShape(kvs, r[|d.cur|..]) else ShapeAt(d.tree, r)
  {
    var x := kvs[|kvs| - 1];
    RelativePosition(d.cur, Keys(x.path), r);
    if IsPrefix(r, d.cur) {
      assert d.cur == r + d.cur[|r|..];
      GetAppend(d.tree, r, d.cur[|r|..]);
    }
  }

  lemma SingleStmt(d: Doc, s: Stmt)
    requires Ready(d) && Proper(s)
    ensures Exec(d, [s]) == Apply(d, s)
  {
    if Apply(d, s).Ok? {
      ApplyReady(d, s);
      assert [s][1..] == [];
    }
  }

  lemma FitsIsPrefixFree(kvs: seq<Pair>)
    requires kvs != []
    ensures var n := |kvs| - 1;
            PrefixFree(kvs) <==> PrefixFree(kvs[..n]) && Fits(kvs[..n], kvs[n].path)
  {
    var n := |kvs| - 1;
    if PrefixFree(kvs[..n]) && Fits(kvs[..n], kvs[n].path) {
      forall i, j | 0 <= i < j < |kvs| ensures !Comparable(kvs[i].path, kvs[j].path) {
        assert kvs[..n][i] == kvs[i];
        if j < n { assert kvs[..n][j] == kvs[j]; }
      }
    }
  }

  /** Positions relative to `q`. */
  lemma RelativePosition(q: Path, p: Path, r: Path)
    ensures IsPrefix(q + p, r) <==> IsPrefix(q, r) && IsPrefix(p, r[|q|..])
    ensures IsPrefix(q + p, r) ==> r[|q + p|..] == r[|q|..][|p|..]
    ensures IsPrefix(q, r) ==> (IsPrefix(r, q + p) <==> IsPrefix(r[|q|..], p))
    ensures IsPrefix(r, q + p) && !IsPrefix(q, r) ==> IsPrefix(r, q)
  {
    if IsPrefix(q + p, r) {
      assert r[..|q|] == (q + p)[..|q|] == q;
      assert r[|q|..][..|p|] == (q + p)[|q|..] == p;
    }
    if IsPrefix(q, r) && IsPrefix(p, r[|q|..]) {
      assert r[..|q + p|] == q + p;
    }
    if IsPrefix(q, r) {
      assert r == q + r[|q|..];
      if IsPrefix(r, q + p) { assert p[..|r| - |q|] == (q + p)[|q|..|r|] == r[|q|..]; }
      if IsPrefix(r[|q|..], p) { assert (q + p)[..|r|] == q + p[..|r| - |q|]; }
    }
    assert IsPrefix(q, q + p);
    if IsPrefix(r, q + p) {
      PrefixesComparable(q, r, q + p);
    }
  }
}
