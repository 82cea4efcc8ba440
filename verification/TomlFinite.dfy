/** Every float an accepted document holds is finite: a number token is accepted only if its
    literal reads as a finite float64, and no statement makes up a scalar. */
module TomlFinite {
  import opened Prelude
  import Numerals
  import opened TomlTree
  import opened TomlSyntax
  import opened TomlRuns
  import opened TomlDocument
  import TomlEffects

  /** Every float of the tree is the literal of a finite float64. */
  predicate Finite(t: Tree) {
    match t
    case Leaf(Float(lit)) => Numerals.IsFloat(lit)
    case Leaf(_) => true
    case Arr(xs) => forall i :: 0 <= i < |xs| ==> Finite(xs[i])
    case Map(m) => forall k :: k in m ==> Finite(m[k])
  }

  lemma {:induction false} FiniteGet(t: Tree, p: Path)
    requires Finite(t) && Get(t, p).Some?
    ensures Finite(Get(t, p).value)
    decreases t
  {
    hide Numerals.IsFloat;
    if p == [] {
    } else {
      match p[0] {
        case Key(k) => FiniteGet(t.entries[k], p[1..]);
        case Idx(i) => FiniteGet(t.elems[i], p[1..]);
      }
    }
  }

  /** A tree whose floats are finite position by position is finite. */
  lemma {:induction false} FiniteAt(t: Tree)
    requires forall r, lit :: ShapeAt(t, r) == Scal(Float(lit)) ==> Numerals.IsFloat(lit)
    ensures Finite(t)
    decreases t
  {
    hide Numerals.IsFloat;
    match t {
      case Leaf(x) => assert ShapeAt(t, []) == Scal(x);
      case Arr(xs) =>
        forall i | 0 <= i < |xs| ensures Finite(xs[i]) {
          forall r, lit | ShapeAt(xs[i], r) == Scal(Float(lit)) ensures Numerals.IsFloat(lit) {
            GetAppend(t, [Idx(i)], r);
            assert [Idx(i)][1..] == [];
            assert ShapeAt(t, [Idx(i)] + r) == Scal(Float(lit));
          }
          FiniteAt(xs[i]);
        }
      case Map(m) =>
        forall k | k in m ensures Finite(m[k]) {
          forall r, lit | ShapeAt(m[k], r) == Scal(Float(lit)) ensures Numerals.IsFloat(lit) {
            GetAppend(t, [Key(k)], r);
            GetKey(t, k);
            assert ShapeAt(t, [Key(k)] + r) == Scal(Float(lit));
          }
          FiniteAt(m[k]);
        }
    }
  }

  // ----- values as read -----

  lemma NumberFinite(s: string)
    requires Number(s).Good?
    ensures Finite(Leaf(Number(s).value))
  {
    hide Numerals.IsFloat;
    hide Numerals.ParseInt64;
  }

  lemma {:induction false} ValueFinite(s: string)
    requires Value(s).Good?
    ensures Finite(Value(s).value)
    decreases |s|, 0
  {
    hide Items;
    hide Number;
    hide BasicBody;
    hide LiteralBody;
    hide Numerals.IsFloat;
    if s[0] == '[' {
      ItemsFinite(s[1..]);
    } else if s[0] == '+' || s[0] == '-' || Numerals.IsDigit(s[0]) {
      NumberFinite(s);
    }
  }

  lemma {:induction false} ItemsFinite(s: string)
    requires Items(s).Good?
    ensures forall i :: 0 <= i < |Items(s).value| ==> Finite(Items(s).value[i])
    decreases |s|, 1
  {
    hide Value;
    hide SkipBlank;
    hide Finite;
    var s0 := SkipBlank(s);
    if s0[0] == ']' {
    } else {
      ValueFinite(s0);
      var s1 := SkipBlank(Value(s0).rest);
      if s1[0] == ',' {
        ItemsFinite(s1[1..]);
      }
    }
  }

  /** Every value of the statements of a text is finite. */
  predicate FiniteStmts(ss: seq<Stmt>) {
    forall i :: 0 <= i < |ss| && ss[i].KeyVal? ==> Finite(ss[i].v)
  }

  lemma LineFinite(s: string)
    requires s != [] && Line(s).Good? && Line(s).value.KeyVal?
    ensures Finite(Line(s).value.v)
  {
    hide Value;
    hide KeyPath;
    hide LineEnd;
    hide Finite;
    if s[0] != '[' {
      ValueFinite(SkipInline(SkipInline(KeyPath(s).rest)[1..]));
    }
  }

  lemma {:induction false} ScanFinite(s: string)
    requires Scan(s).Good?
    ensures FiniteStmts(Scan(s).value)
    decreases |s|
  {
    hide Line;
    hide SkipBlank;
    hide Finite;
    var s0 := SkipBlank(s);
    if s0 == [] {
    } else {
      ScanFinite(Line(s0).rest);
      if Line(s0).value.KeyVal? {
        LineFinite(s0);
      }
    }
  }

  // ----- trees -----

  lemma {:induction false} PlacedFinite(d: Doc, ss: seq<Stmt>)
    requires Ready(d) && AllProper(ss) && Exec(d, ss).Ok? && FiniteStmts(ss)
    ensures forall pl :: pl in Placed(d, ss) ==> Finite(pl.v)
    decreases |ss|
  {
    hide Finite;
    hide Apply;
    if ss == [] {
    } else {
      TomlEffects.ApplyReady(d, ss[0]);
      PlacedFinite(Apply(d, ss[0]).value, ss[1..]);
    }
  }

  lemma RunFinite(ss: seq<Stmt>)
    requires AllProper(ss) && Exec(EMPTY, ss).Ok? && FiniteStmts(ss)
    ensures Finite(Exec(EMPTY, ss).value.tree)
  {
    hide Exec;
    hide Placed;
    var t := Exec(EMPTY, ss).value.tree;
    PlacedFinite(EMPTY, ss);
    forall r, lit | ShapeAt(t, r) == Scal(Float(lit)) ensures Numerals.IsFloat(lit) {
      RunScalars(EMPTY, ss, r, Float(lit));
      var pl :| pl in Placed(EMPTY, ss) && Provides(pl, r, Float(lit));
      FiniteGet(pl.v, r[|pl.base|..]);
    }
    FiniteAt(t);
  }

  /** Every float of the tree of an accepted text is finite. */
  lemma ParsedFinite(src: string)
    requires ParseDoc(src).Ok?
    ensures Finite(ParseDoc(src).value)
  {
    hide Exec;
    hide Scan;
    hide Run;
    RunIsExec(src, EMPTY);
    ScanFinite(src);
    RunFinite(Scan(src).value);
  }
}
