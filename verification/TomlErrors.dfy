/** Which error a statement is refused with, and where: read off the positions of the tree that
    stands when the statement is met. */
module TomlErrors {
  import opened Prelude
  import opened TomlTree
  import opened TomlEffects

  // ----- where a header path stops -----

  /** What stops a header path at a position: a scalar, an empty list, or a list whose last element
      is no table. */
  predicate Blocks(t: Tree, a: Path, e: Kind) {
    match ShapeAt(t, a)
    case Scal(_) => e == HoldsValue
    case List(n) =>
      if n == 0 then e == EmptyArray else ShapeAt(t, a + [Idx(n - 1)]) != Table && e == ArrayOfValues
    case _ => false
  }

  /** The tree leads along the first i names to `p`, and the next name is blocked. */
  predicate StopsAt(t: Tree, path: seq<string>, i: nat, p: Path, e: Kind) {
    i < |path| && Leads(t, [], p) && NamesOn(p) == path[..i] && Blocks(t, p + [Key(path[i])], e)
  }

  ghost predicate Stops(t: Tree, path: seq<string>, e: Kind) {
    exists p, i: nat :: StopsAt(t, path, i, p, e)
  }

  lemma {:induction false} WalkSplit(t: Tree, q: Path, a: seq<string>, b: seq<string>, crossing: bool)
    requires IsTable(t, q)
    ensures Walk(t, q, a + b, crossing)
         == match Walk(t, q, a, crossing) case Err(e) => Err(e) case Ok(Spot(t1, q1)) => Walk(t1, q1, b, crossing)
    decreases |a|
  {
    if a == [] {
      assert a + b == b;
    } else {
      var m := TableAt(t, q);
      var next := q + [Key(a[0])];
      assert (a + b)[0] == a[0] && (a + b)[1..] == a[1..] + b;
      GetAppend(t, q, [Key(a[0])]);
      GetKey(Map(m), a[0]);
      if a[0] !in m {
        Grow(t, q, a[0], Map(map[]));
        WalkSplit(Put(t, q, a[0], Map(map[])), next, a[1..], b, crossing);
      } else {
        match m[a[0]] {
          case Map(_) => WalkSplit(t, next, a[1..], b, crossing);
          case Arr(xs) =>
            if crossing && xs != [] && xs[|xs| - 1].Map? {
              GetAppend(t, next, [Idx(|xs| - 1)]);
              WalkSplit(t, next + [Idx(|xs| - 1)], a[1..], b, crossing);
            }
          case Leaf(_) =>
        }
      }
    }
  }

  /** The shapes below a table, read off its entry. */
  lemma EntryShapes(t: Tree, q: Path, k: string)
    requires IsTable(t, q)
    ensures var m, a := TableAt(t, q), q + [Key(k)];
            && ShapeAt(t, a) == (if k in m then ShapeOf(m[k]) else Absent)
            && (k in m && m[k].Arr? && m[k].elems != [] ==>
                  var n := |m[k].elems| - 1; ShapeAt(t, a + [Idx(n)]) == ShapeOf(m[k].elems[n]))
  {
    var m, a := TableAt(t, q), q + [Key(k)];
    GetAppend(t, q, [Key(k)]);
    GetKey(Map(m), k);
    if k in m && m[k].Arr? && m[k].elems != [] {
      var n := |m[k].elems| - 1;
      GetAppend(t, a, [Idx(n)]);
      assert [Idx(n)][1..] == [];
    }
  }

  /** One name: the walk is refused exactly for what blocks it. */
  lemma StepBlocked(t: Tree, q: Path, k: string, e: Kind)
    requires IsTable(t, q)
    ensures Walk(t, q, [k], true) == Err(e) <==> Blocks(t, q + [Key(k)], e)
  {
    EntryShapes(t, q, k);
    hide ShapeAt;
    hide Get;
    assert [k][1..] == [];
  }

  /** A walk does not change what blocks the next name. */
  lemma BlocksAfter(t: Tree, front: seq<string>, k: string, e: Kind)
    requires IsTable(t, []) && Walk(t, [], front, true).Ok?
    ensures var Spot(t1, p) := Walk(t, [], front, true).value;
            Blocks(t1, p + [Key(k)], e) <==> Blocks(t, p + [Key(k)], e)
  {
    var Spot(t1, p) := Walk(t, [], front, true).value;
    var a := p + [Key(k)];
    WalkShape(t, [], front, true, a);
    forall n: nat ensures ShapeAt(t1, a + [Idx(n)]) == ShapeAt(t, a + [Idx(n)]) {
      WalkShape(t, [], front, true, a + [Idx(n)]);
    }
  }

  lemma {:induction false} WalkStops(t: Tree, path: seq<string>, e: Kind)
    requires IsTable(t, []) && Walk(t, [], path, true) == Err(e)
    ensures Stops(t, path, e)
    decreases |path|
  {
    if path == [] {
    } else {
      var n := |path| - 1;
      var front, k := path[..n], path[n];
      assert path == front + [k];
      WalkSplit(t, [], front, [k], true);
      match Walk(t, [], front, true) {
        case Err(_) =>
          WalkStops(t, front, e);
          var p, i: nat :| StopsAt(t, front, i, p, e);
          assert path[..i] == front[..i];
          assert StopsAt(t, path, i, p, e);
        case Ok(Spot(t1, p)) =>
          StepBlocked(t1, p, k, e);
          BlocksAfter(t, front, k, e);
          WalkLeads(t, [], front);
          WalkDestination(t, [], front, true);
          assert [] + front == front;
          assert StopsAt(t, path, n, p, e);
      }
    }
  }

  lemma StopRefuses(t: Tree, path: seq<string>, i: nat, p: Path, e: Kind)
    requires IsTable(t, []) && StopsAt(t, path, i, p, e)
    ensures Walk(t, [], path, true) == Err(e)
  {
    var front, k := path[..i], path[i];
    assert p[0..] == p;
    LeadsWalk(t, [], p);
    var Spot(t1, _) := Walk(t, [], front, true).value;
    BlocksAfter(t, front, k, e);
    StepBlocked(t1, p, k, e);
    WalkSplit(t1, p, [k], path[i + 1..], true);
    assert path[i..] == [k] + path[i + 1..];
    assert path == front + path[i..];
    WalkSplit(t, [], front, path[i..], true);
  }

  /** A header path is refused with an error exactly if that stops it at some position. */
  lemma CrossingRefused(t: Tree, path: seq<string>, e: Kind)
    requires IsTable(t, [])
    ensures Walk(t, [], path, true) == Err(e) <==> Stops(t, path, e)
  {
    if Walk(t, [], path, true) == Err(e) {
      WalkStops(t, path, e);
    }
    if Stops(t, path, e) {
      var p, i: nat :| StopsAt(t, path, i, p, e);
      StopRefuses(t, path, i, p, e);
    }
  }

  // ----- the error of a statement -----

  /** A table header: a header given before, or the position that stops its path. */
  lemma TableRefused(d: Doc, path: seq<string>, e: Kind)
    requires Ready(d)
    ensures OpenTable(d, path) == Err(e) <==>
            if JoinNul(path) in d.explicit then e == DefinedTwice else Stops(d.tree, path, e)
  {
    CrossingRefused(d.tree, path, e);
    hide Walk;
  }

  /** What keeps an array of tables from being started or continued at a position. */
  predicate Unfit(t: Tree, a: Path, e: Kind) {
    match ShapeAt(t, a)
    case Absent => false
    case List(n) => n > 0 && ShapeAt(t, a + [Idx(n - 1)]) != Table && e == CannotExtend
    case _ => e == NotAnArray
  }

  predicate UnfitAt(t: Tree, path: seq<string>, q: Path, e: Kind)
    requires path != []
  {
    var n := |path| - 1;
    Leads(t, [], q) && NamesOn(q) == path[..n] && Unfit(t, q + [Key(path[n])], e)
  }

  /** An array header: the position that stops the front of its path, or its last position. */
  lemma ArrayRefused(d: Doc, path: seq<string>, e: Kind)
    requires Ready(d) && path != []
    ensures OpenArray(d, path) == Err(e) <==>
            Stops(d.tree, path[..|path| - 1], e) || exists q :: UnfitAt(d.tree, path, q, e)
  {
    var front := path[..|path| - 1];
    CrossingRefused(d.tree, front, e);
    forall q | UnfitAt(d.tree, path, q, e)
      ensures Walk(d.tree, [], front, true).Ok? && Walk(d.tree, [], front, true).value.at == q
    {
      assert q[0..] == q;
      LeadsWalk(d.tree, [], q);
    }
    if Walk(d.tree, [], front, true).Ok? {
      var q := Walk(d.tree, [], front, true).value.at;
      ArrayUnfit(d, path, e);
      WalkLeads(d.tree, [], front);
      WalkDestination(d.tree, [], front, true);
      assert [] + front == front;
      assert UnfitAt(d.tree, path, q, e) <==> Unfit(d.tree, q + [Key(path[|path| - 1])], e);
    } else {
      hide UnfitAt;
    }
  }

  lemma ArrayUnfit(d: Doc, path: seq<string>, e: Kind)
    requires Ready(d) && path != [] && Walk(d.tree, [], path[..|path| - 1], true).Ok?
    ensures var q := Walk(d.tree, [], path[..|path| - 1], true).value.at;
            OpenArray(d, path) == Err(e) <==> Unfit(d.tree, q + [Key(path[|path| - 1])], e)
  {
    var front, name := path[..|path| - 1], path[|path| - 1];
    var Spot(t, q) := Walk(d.tree, [], front, true).value;
    UnfitAfter(d.tree, front, name, e);
    EntryShapes(t, q, name);
    assert OpenArray(d, path) == Err(e) <==> Unfit(t, q + [Key(name)], e) by {
      hide ShapeAt;
      hide Get;
      hide Walk;
      hide Put;
    }
  }

  /** The walk does not change what the last position holds. */
  lemma UnfitAfter(t: Tree, front: seq<string>, k: string, e: Kind)
    requires IsTable(t, []) && Walk(t, [], front, true).Ok?
    ensures var Spot(t1, p) := Walk(t, [], front, true).value;
            Unfit(t1, p + [Key(k)], e) <==> Unfit(t, p + [Key(k)], e)
  {
    var Spot(t1, p) := Walk(t, [], front, true).value;
    var a := p + [Key(k)];
    WalkShape(t, [], front, true, a);
    forall n: nat ensures ShapeAt(t1, a + [Idx(n)]) == ShapeAt(t, a + [Idx(n)]) {
      WalkShape(t, [], front, true, a + [Idx(n)]);
    }
    hide Walk;
    hide ShapeAt;
  }

  lemma {:induction false} DottedRefused(t: Tree, q: Path, path: seq<string>)
    requires IsTable(t, q)
    ensures Walk(t, q, path, false).Err? ==> Walk(t, q, path, false).error == HoldsValue
    decreases |path|
  {
    if path == [] {
    } else {
      var next := q + [Key(path[0])];
      GetAppend(t, q, [Key(path[0])]);
      GetKey(Map(TableAt(t, q)), path[0]);
      if path[0] !in TableAt(t, q) {
        Grow(t, q, path[0], Map(map[]));
        DottedRefused(Put(t, q, path[0], Map(map[])), next, path[1..]);
      } else if TableAt(t, q)[path[0]].Map? {
        DottedRefused(t, next, path[1..]);
      }
    }
  }

  lemma KeyError(d: Doc, path: seq<string>, v: Tree)
    requires Ready(d) && path != []
    ensures AddKey(d, path, v).Err? ==>
              AddKey(d, path, v).error
              == if Walk(d.tree, d.cur, path[..|path| - 1], false).Ok? then SetTwice else HoldsValue
  {
    DottedRefused(d.tree, d.cur, path[..|path| - 1]);
    hide Walk;
  }

  /** A key: a value or a list on the way to it, or else that it is set already. */
  lemma KeyRefused(d: Doc, path: seq<string>, v: Tree, e: Kind)
    requires Ready(d) && path != []
    ensures AddKey(d, path, v) == Err(e) <==>
            if forall i :: 1 <= i < |path| ==> ShapeAt(d.tree, d.cur + Keys(path[..i])) in {Absent, Table} then
              e == SetTwice && ShapeAt(d.tree, d.cur + Keys(path)) != Absent
            else e == HoldsValue
  {
    hide AddKey;
    hide ShapeAt;
    hide Walk;
    var front := path[..|path| - 1];
    KeyCondition(d, path, v);
    KeyError(d, path, v);
    WalkSucceeds(d.tree, d.cur, front);
    assert forall i :: 1 <= i < |path| ==> front[..i] == path[..i];
    hide Keys;
  }
}
