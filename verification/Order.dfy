/** Go's byte-wise string order and sort.Strings. */
module Order {
  predicate Less(a: string, b: string) {
    b != [] && (a == [] || a[0] < b[0] || (a[0] == b[0] && Less(a[1..], b[1..])))
  }

  lemma {:induction false} Irreflexive(a: string)
    ensures !Less(a, a)
  {
    if a == [] {
    } else {
      Irreflexive(a[1..]);
    }
  }

  lemma {:induction false} Transitive(a: string, b: string, c: string)
    requires Less(a, b) && Less(b, c)
    ensures Less(a, c)
  {
    if a == [] || b[0] != a[0] || c[0] != b[0] {
    } else {
      Transitive(a[1..], b[1..], c[1..]);
    }
  }

  lemma {:induction false} Total(a: string, b: string)
    ensures a == b || Less(a, b) || Less(b, a)
  {
    if a == [] || b == [] || a[0] != b[0] {
    } else {
      Total(a[1..], b[1..]);
      assert a == [a[0]] + a[1..] && b == [b[0]] + b[1..];
    }
  }

  /** Strictly ascending, hence without duplicates. */
  predicate Ascending(s: seq<string>) {
    forall i, j :: 0 <= i < j < |s| ==> Less(s[i], s[j])
  }

  function Elements<T(!new)>(s: seq<T>): (r: set<T>)
    ensures forall x :: x in r <==> x in s
  {
    set x | x in s
  }

  predicate Distinct<T(==)>(s: seq<T>) {
    forall i, j :: 0 <= i < j < |s| ==> s[i] != s[j]
  }

  /** Distinct, read from the front. */
  predicate NoRepeat<T(==)>(s: seq<T>) {
    s == [] || (s[0] !in s[1..] && NoRepeat(s[1..]))
  }

  lemma {:induction false} DistinctNoRepeat<T>(s: seq<T>)
    requires Distinct(s)
    ensures NoRepeat(s)
  {
    if s == [] {
    } else {
      DistinctNoRepeat(s[1..]);
    }
  }

  function Insert(x: string, s: seq<string>): seq<string> {
    if s == [] || Less(x, s[0]) then [x] + s else [s[0]] + Insert(x, s[1..])
  }

  /** sort.Strings, as an insertion sort. */
  function Sort(s: seq<string>): seq<string> {
    if s == [] then [] else Insert(s[0], Sort(s[1..]))
  }

  lemma {:induction false} InsertSorts(x: string, s: seq<string>)
    requires Ascending(s) && x !in s
    ensures Ascending(Insert(x, s)) && Elements(Insert(x, s)) == Elements(s) + {x}
  {
    if s != [] && !Less(x, s[0]) {
      Total(x, s[0]);
      InsertSorts(x, s[1..]);
      var r := Insert(x, s[1..]);
      forall i | 0 <= i < |r| ensures Less(s[0], r[i]) {
        assert r[i] in Elements(r);
        if r[i] != x {
          var j :| 0 <= j < |s[1..]| && s[1..][j] == r[i];
          assert s[j + 1] == r[i];
        }
      }
      assert s == [s[0]] + s[1..];
    } else if s != [] {
      forall i | 0 <= i < |s| ensures Less(x, s[i]) {
        if i > 0 { Transitive(x, s[0], s[i]); }
      }
    }
  }

  lemma {:induction false} SortSorts(s: seq<string>)
    requires Distinct(s)
    ensures Ascending(Sort(s)) && Elements(Sort(s)) == Elements(s)
  {
    if s == [] {
    } else {
      SortSorts(s[1..]);
      assert s == [s[0]] + s[1..];
      assert s[0] !in Elements(s[1..]);
      assert s[0] !in Sort(s[1..]);
      InsertSorts(s[0], Sort(s[1..]));
    }
  }

  /** Only one ascending sequence has a given set of elements. */
  lemma {:induction false} AscendingUnique(a: seq<string>, b: seq<string>)
    requires Ascending(a) && Ascending(b) && Elements(a) == Elements(b)
    ensures a == b
  {
    NoElements(a);
    NoElements(b);
    if a == [] {
    } else {
      HeadIsLeast(a, b);
      HeadIsLeast(b, a);
      Total(a[0], b[0]);
      TailElements(a);
      TailElements(b);
      AscendingUnique(a[1..], b[1..]);
      assert a == [a[0]] + a[1..] && b == [b[0]] + b[1..];
    }
  }

  lemma NoElements(s: seq<string>)
    ensures Elements(s) == {} <==> s == []
  {
    if s != [] { assert s[0] in Elements(s); }
  }

  lemma HeadIsLeast(a: seq<string>, b: seq<string>)
    requires Ascending(a) && Elements(a) == Elements(b) && a != [] && b != []
    ensures !Less(b[0], a[0])
  {
    assert b[0] in Elements(a);
    var i :| 0 <= i < |a| && a[i] == b[0];
    if Less(b[0], a[0]) {
      if i > 0 { Transitive(a[0], a[i], a[0]); }
      Irreflexive(a[0]);
    }
  }

  lemma TailElements(a: seq<string>)
    requires Ascending(a) && a != []
    ensures Elements(a[1..]) == Elements(a) - {a[0]}
  {
    assert a == [a[0]] + a[1..];
    Irreflexive(a[0]);
    assert a[0] !in a[1..];
  }

  lemma AscendingDistinct(a: seq<string>)
    requires Ascending(a)
    ensures Distinct(a)
  {
    forall i, j | 0 <= i < j < |a| ensures a[i] != a[j] {
      Irreflexive(a[i]);
    }
  }

  /** The ascending enumeration of a set of keys. */
  ghost function SortedKeys(s: set<string>): (r: seq<string>)
    ensures Ascending(r) && Elements(r) == s
  {
    var e := Enumerate(s);
    SortSorts(e);
    Sort(e)
  }

  ghost function Enumerate(s: set<string>): (r: seq<string>)
    ensures Distinct(r) && Elements(r) == s
  {
    if s == {} then []
    else
      var x :| x in s;
      var t := Enumerate(s - {x});
      assert x !in t by { assert x !in Elements(t); }
      [x] + t
  }

  /** Sorting any enumeration of a set gives the same sequence. */
  lemma SortCanonical(e: seq<string>)
    requires Distinct(e)
    ensures Sort(e) == SortedKeys(Elements(e))
  {
    SortSorts(e);
    AscendingUnique(Sort(e), SortedKeys(Elements(e)));
  }
}
