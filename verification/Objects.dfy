/** JSON objects with a caller-controlled key order, and the object that builds them in
    place. */
module Objects {
  import opened Prelude
  import opened Order
  import Json
  import Utf8

  /** The entries of an object: its keys in order, and their values. */
  datatype Object = Object(keys: seq<string>, vals: map<string, Json.Value>)

  const NOTHING := Object([], map[])

  predicate WellFormed(o: Object) {
    Distinct(o.keys) && Elements(o.keys) == o.vals.Keys
  }

  function Lookup(o: Object, k: string): Option<Json.Value> {
    if k in o.vals then Some(o.vals[k]) else None
  }

  /** A new key goes to the end; a known key keeps its position and loses its value. */
  function With(o: Object, k: string, v: Json.Value): (r: Object)
    requires WellFormed(o)
    ensures WellFormed(r)
  {
    if k in o.vals then
      o.(vals := o.vals[k := v])
    else
      assert k !in o.keys by { assert k !in Elements(o.keys); }
      var r := Object(o.keys + [k], o.vals[k := v]);
      assert Elements(r.keys) == Elements(o.keys) + {k};
      r
  }

  type Entry = (string, Json.Value)

  function KeysIn(es: seq<Entry>): (r: seq<string>)
    ensures |r| == |es| && forall i :: 0 <= i < |es| ==> r[i] == es[i].0
  {
    seq(|es|, i requires 0 <= i < |es| => es[i].0)
  }

  /** The object a chain of Set calls builds. */
  function Built(es: seq<Entry>): (o: Object)
    ensures WellFormed(o)
  {
    if es == [] then NOTHING
    else
      var last := es[|es| - 1];
      With(Built(es[..|es| - 1]), last.0, last.1)
  }

  /** After Set, Get gives the new value under that key and what it gave before under every other;
      a new key goes last. */
  lemma WithEntries(o: Object, k: string, v: Json.Value)
    requires WellFormed(o)
    ensures With(o, k, v).keys == if k in o.keys then o.keys else o.keys + [k]
    ensures forall j :: Lookup(With(o, k, v), j) == if j == k then Some(v) else Lookup(o, j)
  {
    assert k in Elements(o.keys) <==> k in o.vals;
  }

  /** A chain of Set calls on distinct keys keeps them in order, each with its value. */
  lemma {:induction false} BuiltKeys(es: seq<Entry>)
    requires Distinct(KeysIn(es))
    ensures Built(es).keys == KeysIn(es)
  {
    if es == [] {
    } else {
      var front, last := es[..|es| - 1], es[|es| - 1];
      var ks := KeysIn(es);
      assert KeysIn(front) == ks[..|front|];
      BuiltKeys(front);
      assert ks == KeysIn(front) + [last.0];
      WithEntries(Built(front), last.0, last.1);
    }
  }

  lemma {:induction false} BuiltLookup(es: seq<Entry>, i: nat)
    requires i < |es| && Distinct(KeysIn(es))
    ensures Lookup(Built(es), es[i].0) == Some(es[i].1)
  {
    hide With;
    hide WellFormed;
    hide Lookup;
    var front, last := es[..|es| - 1], es[|es| - 1];
    var ks := KeysIn(es);
    WithEntries(Built(front), last.0, last.1);
    if i < |front| {
      assert KeysIn(front) == ks[..|front|];
      BuiltLookup(front, i);
      assert front[i] == es[i];
      assert ks[i] != ks[|front|];
    }
  }

  /** An object after every entry of `m`: the values of `m` win, the keys that were there
      keep their positions and the others follow in ascending order. */
  ghost function Merged(o: Object, m: map<string, Json.Value>): (r: Object)
    requires WellFormed(o)
    ensures WellFormed(r)
  {
    var news := SortedKeys(m.Keys - o.vals.Keys);
    AscendingDistinct(news);
    MergedWellFormed(o, m, news);
    Object(o.keys + news, o.vals + m)
  }

  lemma MergedWellFormed(o: Object, m: map<string, Json.Value>, news: seq<string>)
    requires WellFormed(o) && Distinct(news) && Elements(news) == m.Keys - o.vals.Keys
    ensures WellFormed(Object(o.keys + news, o.vals + m))
  {
    var ks := o.keys + news;
    forall i, j | 0 <= i < j < |ks| ensures ks[i] != ks[j] {
      if i < |o.keys| <= j {
        assert ks[i] in Elements(o.keys) && ks[j] in Elements(news);
      }
    }
    assert Elements(ks) == Elements(o.keys) + Elements(news);
  }

  /** The keys of `ks` that are not among `known`. */
  function NewKeys(ks: seq<string>, known: set<string>): seq<string> {
    if ks == [] then []
    else
      var r := NewKeys(ks[..|ks| - 1], known);
      if ks[|ks| - 1] in known then r else r + [ks[|ks| - 1]]
  }

  lemma {:induction false} NewKeysElements(ks: seq<string>, known: set<string>)
    ensures Elements(NewKeys(ks, known)) == Elements(ks) - known
  {
    if ks == [] {
    } else {
      var front, last := ks[..|ks| - 1], ks[|ks| - 1];
      NewKeysElements(front, known);
      assert ks == front + [last];
      ElementsAdd(front, last);
      ElementsAdd(NewKeys(front, known), last);
    }
  }

  lemma ElementsAdd(s: seq<string>, x: string)
    ensures Elements(s + [x]) == Elements(s) + {x}
  {
  }

  lemma {:induction false} NewKeysAscend(ks: seq<string>, known: set<string>)
    requires Ascending(ks)
    ensures Ascending(NewKeys(ks, known))
  {
    if ks == [] {
    } else {
      var front, last := ks[..|ks| - 1], ks[|ks| - 1];
      NewKeysAscend(front, known);
      NewKeysElements(front, known);
      var r := NewKeys(front, known);
      forall i | 0 <= i < |r| ensures Less(r[i], last) {
        assert r[i] in Elements(r);
        assert r[i] in Elements(front);
        var j :| 0 <= j < |front| && front[j] == r[i];
        assert ks[j] == r[i];
      }
    }
  }

  /** The entries of `m` for the keys `ks`. */
  function Chosen(m: map<string, Json.Value>, ks: seq<string>): map<string, Json.Value> {
    map k | k in m && k in ks :: m[k]
  }

  /** An object after the entries of `m` for the keys `ks`. */
  function Loaded(o: Object, m: map<string, Json.Value>, ks: seq<string>): Object {
    Object(o.keys + NewKeys(ks, o.vals.Keys), o.vals + Chosen(m, ks))
  }

  lemma ChosenStep(m: map<string, Json.Value>, front: seq<string>, k: string)
    requires k in m
    ensures Chosen(m, front + [k]) == Chosen(m, front)[k := m[k]]
  {
  }

  lemma NewKeysStep(front: seq<string>, k: string, known: set<string>)
    ensures NewKeys(front + [k], known) == NewKeys(front, known) + if k in known then [] else [k]
  {
    assert (front + [k])[..|front|] == front;
    assert NewKeys(front, known) + [] == NewKeys(front, known);
  }

  lemma LoadedStep(o: Object, m: map<string, Json.Value>, front: seq<string>, k: string)
    requires k in m && k !in front
    requires WellFormed(o) && WellFormed(Loaded(o, m, front))
    ensures With(Loaded(o, m, front), k, m[k]) == Loaded(o, m, front + [k])
  {
    hide WellFormed;
    hide NewKeys;
    hide Elements;
    var l := Loaded(o, m, front);
    ChosenStep(m, front, k);
    NewKeysStep(front, k, o.vals.Keys);
    assert k !in Chosen(m, front);
    assert k in l.vals <==> k in o.vals;
    assert l.vals[k := m[k]] == o.vals + Chosen(m, front)[k := m[k]];
    if k in o.vals {
      assert l.keys == o.keys + (NewKeys(front, o.vals.Keys) + []);
    } else {
      assert l.keys + [k] == o.keys + (NewKeys(front, o.vals.Keys) + [k]);
    }
  }

  lemma LoadedNone(o: Object, m: map<string, Json.Value>)
    ensures Loaded(o, m, []) == o
  {
    assert o.keys + [] == o.keys;
  }

  lemma LoadedAll(o: Object, m: map<string, Json.Value>, ks: seq<string>)
    requires WellFormed(o) && Ascending(ks) && Elements(ks) == m.Keys
    ensures Loaded(o, m, ks) == Merged(o, m)
  {
    NewKeysElements(ks, o.vals.Keys);
    NewKeysAscend(ks, o.vals.Keys);
    AscendingUnique(NewKeys(ks, o.vals.Keys), SortedKeys(m.Keys - o.vals.Keys));
    assert forall k :: k in m ==> k in Elements(ks);
    assert Chosen(m, ks) == m;
  }

  // ----- text -----

  predicate Encodable(o: Object) {
    forall k :: k in o.keys ==> k in o.vals && Json.Encodable(o.vals[k])
  }

  predicate AllEncodable(o: Object) {
    forall k :: k in o.vals ==> Json.Encodable(o.vals[k])
  }

  lemma {:induction false} BuiltEncodable(es: seq<Entry>)
    requires forall i :: 0 <= i < |es| ==> Json.Encodable(es[i].1)
    ensures AllEncodable(Built(es)) && Encodable(Built(es))
  {
    if es == [] {
    } else {
      BuiltEncodable(es[..|es| - 1]);
    }
    forall k | k in Built(es).keys ensures k in Built(es).vals {
      assert k in Elements(Built(es).keys);
    }
  }

  function MemberText(k: string, v: Json.Value): string
    requires Json.Encodable(v)
  {
    Json.StringText(k) + (":" + Json.ValueText(v))
  }

  /** The members of `ks`, separated by commas. */
  function MembersText(ks: seq<string>, vals: map<string, Json.Value>): string
    requires forall k :: k in ks ==> k in vals && Json.Encodable(vals[k])
  {
    if ks == [] then []
    else
      var last := ks[|ks| - 1];
      MembersText(ks[..|ks| - 1], vals) + ((if |ks| == 1 then "" else ",") + MemberText(last, vals[last]))
  }

  lemma MembersStep(ks: seq<string>, i: nat, vals: map<string, Json.Value>)
    requires i < |ks| && forall k :: k in ks[..i + 1] ==> k in vals && Json.Encodable(vals[k])
    ensures "{" + MembersText(ks[..i + 1], vals)
         == "{" + MembersText(ks[..i], vals) + (if i == 0 then "" else ",") + MemberText(ks[i], vals[ks[i]])
  {
    hide MemberText;
    var front, sep, m := MembersText(ks[..i], vals), if i == 0 then "" else ",", MemberText(ks[i], vals[ks[i]]);
    assert ks[..i + 1][..i] == ks[..i];
    assert MembersText(ks[..i + 1], vals) == front + (sep + m);
    AppendLeft("{", front, sep, m);
  }

  lemma AppendLeft(a: string, b: string, c: string, d: string)
    ensures a + (b + (c + d)) == a + b + c + d
  {
  }

  function Text(o: Object): string
    requires Encodable(o)
  {
    "{" + (MembersText(o.keys, o.vals) + "}")
  }

  // ----- the builder -----

  class Builder {
    var keys: seq<string>
    var vals: map<string, Json.Value>

    ghost predicate Valid()
      reads this
    {
      WellFormed(Contents())
    }

    function Contents(): Object
      reads this
    {
      Object(keys, vals)
    }

    constructor ()
      ensures Valid() && Contents() == NOTHING
    {
      keys, vals := [], map[];
    }

    method Set(key: string, value: Json.Value)
      requires Valid()
      modifies this
      ensures Valid() && Contents() == With(old(Contents()), key, value)
    {
      if key !in vals {
        keys := keys + [key];
      }
      vals := vals[key := value];
    }

    /** Go's map iteration delivers the keys in some order; sorting them removes it. */
    method SetSorted(m: map<string, Json.Value>)
      requires Valid()
      modifies this
      ensures Valid() && Contents() == Merged(old(Contents()), m)
    {
      hide WellFormed;
      hide NewKeys;
      hide Chosen;
      hide With;
      var ks := KeysOf(m);
      SortSorts(ks);
      ks := Sort(ks);
      AscendingDistinct(ks);
      ghost var o := Contents();
      LoadedNone(o, m);
      for i := 0 to |ks|
        invariant Valid() && Contents() == Loaded(o, m, ks[..i])
      {
        assert ks[i] in Elements(ks);
        assert ks[..i + 1] == ks[..i] + [ks[i]];
        LoadedStep(o, m, ks[..i], ks[i]);
        Set(ks[i], m[ks[i]]);
      }
      assert ks[..|ks|] == ks;
      LoadedAll(o, m, ks);
    }

    function Get(key: string): (r: Option<Json.Value>)
      reads this
      ensures r == Lookup(Contents(), key)
    {
      if key in vals then Some(vals[key]) else None
    }

    function Len(): (n: nat)
      requires Valid()
      reads this
      ensures n == |Contents().vals|
    {
      DistinctSize(keys);
      assert Elements(keys) == vals.Keys;
      |keys|
    }

    /** The text of the object, or None when a value cannot be encoded. */
    method MarshalJSON() returns (r: Option<string>)
      requires Valid()
      ensures r == if Encodable(Contents()) then Some(Text(Contents())) else None
    {
      var buf := "{";
      for i := 0 to |keys|
        invariant forall k :: k in keys[..i] ==> k in vals && Json.Encodable(vals[k])
        invariant buf == "{" + MembersText(keys[..i], vals)
      {
        var k := keys[i];
        assert k in Elements(keys);
        if !Json.Encodable(vals[k]) {
          return None;
        }
        MembersStep(keys, i, vals);
        if i > 0 {
          buf := buf + ",";
        }
        buf := buf + MemberText(k, vals[k]);
      }
      assert keys[..|keys|] == keys;
      assert buf + "}" == "{" + (MembersText(keys, vals) + "}");
      return Some(buf + "}");
    }
  }

  /** NewObj followed by a chain of Set calls. */
  method NewObject(es: seq<Entry>) returns (c: Builder)
    ensures fresh(c) && c.Valid() && c.Contents() == Built(es)
  {
    c := new Builder();
    for i := 0 to |es|
      invariant c.Valid() && c.Contents() == Built(es[..i])
    {
      assert es[..i + 1][..i] == es[..i];
      c.Set(es[i].0, es[i].1);
    }
    assert es[..|es|] == es;
  }

  /** An enumeration of the keys of a map, in any order. */
  method KeysOf<V>(m: map<string, V>) returns (ks: seq<string>)
    ensures Distinct(ks) && Elements(ks) == m.Keys
  {
    ks := [];
    var rest := m.Keys;
    while rest != {}
      invariant Distinct(ks) && rest <= m.Keys && Elements(ks) == m.Keys - rest
      decreases |rest|
    {
      var k :| k in rest;
      assert k !in ks by { assert k !in Elements(ks); }
      assert Elements(ks + [k]) == Elements(ks) + {k};
      ks := ks + [k];
      rest := rest - {k};
    }
  }

  lemma {:induction false} DistinctSize(s: seq<string>)
    requires Distinct(s)
    ensures |Elements(s)| == |s|
  {
    if s != [] {
      var front, last := s[..|s| - 1], s[|s| - 1];
      DistinctSize(front);
      assert Elements(s) == Elements(front) + {last};
    } else {
      NoElements(s);
    }
  }

  // ----- what a written object reads back as -----

  /** The decoded entries of `ks`, on top of `m`: keys that clean to the same string
      collide, and the last one wins. */
  function Decoded(ks: seq<string>, vals: map<string, Json.Value>, m: map<string, Json.Value>): map<string, Json.Value>
    requires forall k :: k in ks ==> k in vals && Json.Encodable(vals[k])
  {
    if ks == [] then m
    else
      var last := ks[|ks| - 1];
      Decoded(ks[..|ks| - 1], vals, m)[Json.Clean(last) := Json.CleanValue(vals[last])]
  }

  /** Reading members from the comma or closing brace that follows one. */
  function After(tail: string, m: map<string, Json.Value>): Json.Read<map<string, Json.Value>>
    requires tail != []
  {
    if tail[0] == '}' then Json.Got(m, tail[1..]) else Json.ReadMembers(tail[1..], m)
  }

  lemma MemberRead(k: string, v: Json.Value, tail: string, m: map<string, Json.Value>)
    requires Json.Encodable(v) && tail != [] && (tail[0] == ',' || tail[0] == '}')
    ensures Json.ReadMembers(MemberText(k, v) + tail, m) == After(tail, m[Json.Clean(k) := Json.CleanValue(v)])
  {
    hide Json.Chars;
    hide Json.CharsText;
    hide Json.Clean;
    hide Json.ReadValue;
    hide Json.ValueText;
    hide Json.CleanValue;
    var t := MemberText(k, v) + tail;
    var rest := ":" + (Json.ValueText(v) + tail);
    assert t[0] == '"' && t[1..] == Json.CharsText(k) + ("\"" + rest);
    Json.CharsRead(k, rest);
    assert rest[1..] == Json.ValueText(v) + tail;
    Json.ValueRead(v, tail);
  }

  lemma {:induction false} MembersRead(ks: seq<string>, vals: map<string, Json.Value>, tail: string,
                                       m: map<string, Json.Value>)
    requires ks != [] && forall k :: k in ks ==> k in vals && Json.Encodable(vals[k])
    requires tail != [] && (tail[0] == ',' || tail[0] == '}')
    ensures Json.ReadMembers(MembersText(ks, vals) + tail, m) == After(tail, Decoded(ks, vals, m))
  {
    hide Json.ReadMembers;
    hide MemberText;
    hide Json.Clean;
    hide Json.CleanValue;
    var front, last := ks[..|ks| - 1], ks[|ks| - 1];
    var text := MemberText(last, vals[last]);
    MemberRead(last, vals[last], tail, Decoded(front, vals, m));
    if |ks| == 1 {
      assert MembersText(ks, vals) == text;
    } else {
      var tail1 := "," + (text + tail);
      assert MembersText(ks, vals) + tail == MembersText(front, vals) + tail1;
      MembersRead(front, vals, tail1, m);
      assert tail1[1..] == text + tail;
    }
  }

  /** A decoded ASCII key has the value that was written under it: no other key cleans to it. */
  lemma {:induction false} DecodedLookup(ks: seq<string>, vals: map<string, Json.Value>, k: string)
    requires forall j :: j in ks ==> j in vals && Json.Encodable(vals[j])
    requires Utf8.Ascii(k)
    ensures var d := Decoded(ks, vals, map[]);
            && (k in d <==> k in ks)
            && (k in ks ==> d[k] == Json.CleanValue(vals[k]))
  {
    hide Json.Clean;
    hide Json.CleanValue;
    hide Utf8.Ascii;
    if ks == [] {
    } else {
      var front, last := ks[..|ks| - 1], ks[|ks| - 1];
      DecodedLookup(front, vals, k);
      assert ks == front + [last];
      Json.CleanToAscii(last, k);
    }
  }

  /** Every object that can be written is read back. */
  lemma TextRead(o: Object)
    requires Encodable(o)
    ensures Json.DecodeObject(Text(o)) == Some(Decoded(o.keys, o.vals, map[]))
  {
    hide MembersText;
    hide Json.ReadMembers;
    var t := Text(o);
    var t1 := MembersText(o.keys, o.vals) + "}";
    assert t[0] == '{' && t[1..] == t1;
    if o.keys == [] {
      NoMembers(o.vals);
      assert Json.SkipWhite(t1) == t1;
    } else {
      MembersRead(o.keys, o.vals, "}", map[]);
      MembersHead(o.keys, o.vals);
    }
  }

  lemma NoMembers(vals: map<string, Json.Value>)
    ensures MembersText([], vals) + "}" == "}"
  {
  }

  lemma {:induction false} MembersHead(ks: seq<string>, vals: map<string, Json.Value>)
    requires ks != [] && forall k :: k in ks ==> k in vals && Json.Encodable(vals[k])
    ensures MembersText(ks, vals) != [] && MembersText(ks, vals)[0] == '"'
  {
    if |ks| == 1 {
    } else {
      MembersHead(ks[..|ks| - 1], vals);
    }
  }

  /** All strings in the value are valid UTF-8. */
  predicate ValidStrings(v: Json.Value) {
    match v
    case Str(s) => Utf8.Valid(s)
    case Arr(xs) => forall i :: 0 <= i < |xs| ==> ValidStrings(xs[i])
    case _ => true
  }

  lemma {:induction false} ValidIsClean(v: Json.Value)
    requires Json.Encodable(v) && ValidStrings(v)
    ensures Json.CleanValue(v) == v
    decreases v, 0
  {
    match v {
      case Str(s) => Json.CleanValid(s);
      case Arr(xs) => ValidAreClean(xs);
      case _ =>
    }
  }

  lemma {:induction false} ValidAreClean(xs: seq<Json.Value>)
    requires forall i :: 0 <= i < |xs| ==> Json.Encodable(xs[i]) && ValidStrings(xs[i])
    ensures Json.CleanAll(xs) == xs
    decreases xs, 1
  {
    if xs == [] {
    } else {
      ValidIsClean(xs[0]);
      ValidAreClean(xs[1..]);
      assert xs == [xs[0]] + xs[1..];
    }
  }

  predicate Valid(o: Object) {
    && (forall k :: k in o.keys ==> Utf8.Valid(k))
    && (forall k :: k in o.vals ==> ValidStrings(o.vals[k]))
  }

  lemma {:induction false} BuiltValid(es: seq<Entry>)
    requires forall i :: 0 <= i < |es| ==> Utf8.Valid(es[i].0) && ValidStrings(es[i].1)
    ensures Valid(Built(es))
  {
    hide Utf8.Valid;
    hide ValidStrings;
    if es == [] {
    } else {
      var last := es[|es| - 1];
      BuiltValid(es[..|es| - 1]);
      WithEntries(Built(es[..|es| - 1]), last.0, last.1);
    }
  }

  /** The entries under the keys `ks`, cleaned. */
  function CleanedEntries(ks: seq<string>, vals: map<string, Json.Value>): map<string, Json.Value>
    requires forall k :: k in ks ==> k in vals && Json.Encodable(vals[k])
  {
    map k | k in vals && k in ks :: Json.CleanValue(vals[k])
  }

  lemma OneMoreCleaned(front: seq<string>, last: string, vals: map<string, Json.Value>)
    requires forall k :: k in front + [last] ==> k in vals && Json.Encodable(vals[k])
    ensures (forall k :: k in front ==> k in vals && Json.Encodable(vals[k])) && last in vals && Json.Encodable(vals[last])
    ensures CleanedEntries(front + [last], vals) == CleanedEntries(front, vals)[last := Json.CleanValue(vals[last])]
  {
    hide Json.CleanValue;
    hide Json.Encodable;
    assert last in front + [last];
    assert forall k :: k in front ==> k in front + [last];
  }

  lemma {:induction false} ValidDecoded(ks: seq<string>, vals: map<string, Json.Value>)
    requires forall k :: k in ks ==> k in vals && Json.Encodable(vals[k]) && Utf8.Valid(k)
    ensures Decoded(ks, vals, map[]) == CleanedEntries(ks, vals)
  {
    if ks == [] {
      assert CleanedEntries([], vals) == map[];
    } else {
      hide CleanedEntries;
      hide Json.CleanValue;
      hide Json.Encodable;
      hide Utf8.Valid;
      var front, last := ks[..|ks| - 1], ks[|ks| - 1];
      assert ks == front + [last];
      OneMoreCleaned(front, last, vals);
      ValidDecoded(front, vals);
      Json.CleanValid(last);
    }
  }

  lemma CleanEntries(o: Object)
    requires WellFormed(o) && Encodable(o) && Valid(o)
    ensures forall k :: k in o.vals ==> k in o.keys && Json.CleanValue(o.vals[k]) == o.vals[k]
  {
    forall k | k in o.vals ensures k in o.keys && Json.CleanValue(o.vals[k]) == o.vals[k] {
      assert k in Elements(o.keys);
      ValidIsClean(o.vals[k]);
    }
  }

  /** An object whose strings are all valid UTF-8 survives writing and reading. */
  lemma ValidRead(o: Object)
    requires WellFormed(o) && Encodable(o) && Valid(o)
    ensures Json.DecodeObject(Text(o)) == Some(o.vals)
  {
    TextRead(o);
    ValidDecoded(o.keys, o.vals);
    CleanEntries(o);
    hide Json.CleanValue;
    hide Json.DecodeObject;
    hide Encodable;
    hide Valid;
    assert Decoded(o.keys, o.vals, map[]) == o.vals;
  }

  lemma {:induction false} MembersBytes(ks: seq<string>, vals: map<string, Json.Value>)
    requires forall k :: k in ks ==> k in vals && Json.Encodable(vals[k])
    ensures Bytes(MembersText(ks, vals))
  {
    hide Json.ValueText;
    hide Json.CharsText;
    if ks == [] {
    } else {
      var last := ks[|ks| - 1];
      MembersBytes(ks[..|ks| - 1], vals);
      Json.CharsBytes(last);
      Json.ValueBytes(vals[last]);
    }
  }

  lemma TextBytes(o: Object)
    requires Encodable(o)
    ensures Bytes(Text(o))
  {
    MembersBytes(o.keys, o.vals);
  }

  // ----- the text, member by member -----

  /** Each member as written: its name, a colon and its value. */
  function MemberTexts(ks: seq<string>, vals: map<string, Json.Value>): seq<string>
    requires forall k :: k in ks ==> k in vals && Json.Encodable(vals[k])
  {
    seq(|ks|, i requires 0 <= i < |ks| => Json.StringText(ks[i]) + (":" + Json.ValueText(vals[ks[i]])))
  }

  /** The text is the members in key order between braces, with commas between them and nothing
      else. */
  lemma TextWritten(o: Object)
    requires Encodable(o)
    ensures Text(o) == "{" + (Join(MemberTexts(o.keys, o.vals), ",") + "}")
  {
    MembersWritten(o.keys, o.vals);
    hide MemberTexts;
    hide MembersText;
  }

  lemma {:induction false} MembersWritten(ks: seq<string>, vals: map<string, Json.Value>)
    requires forall k :: k in ks ==> k in vals && Json.Encodable(vals[k])
    ensures MembersText(ks, vals) == Join(MemberTexts(ks, vals), ",")
  {
    hide Json.StringText;
    hide Json.ValueText;
    hide Json.Encodable;
    if ks == [] {
    } else {
      var n := |ks| - 1;
      MembersWritten(ks[..n], vals);
      var t := Json.StringText(ks[n]) + (":" + Json.ValueText(vals[ks[n]]));
      assert MemberTexts(ks, vals) == MemberTexts(ks[..n], vals) + [t];
      JoinLast(MemberTexts(ks[..n], vals), t, ",");
    }
  }
}
