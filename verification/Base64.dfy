/** Unpadded base64url (section 5 of RFC 4648), as the JOSE formats use it. */
module Base64 {
  import opened Prelude

  function Symbol(n: nat): (c: char)
    requires n < 64
    ensures SymbolValue(c) == Some(n)
  {
    if n < 26 then (n + 'A' as int) as char
    else if n < 52 then (n - 26 + 'a' as int) as char
    else if n < 62 then (n - 52 + '0' as int) as char
    else if n == 62 then '-' else '_'
  }

  function SymbolValue(c: char): (r: Option<nat>)
    ensures r.Some? ==> r.value < 64
  {
    if 'A' <= c <= 'Z' then Some(c as int - 'A' as int)
    else if 'a' <= c <= 'z' then Some(c as int - 'a' as int + 26)
    else if '0' <= c <= '9' then Some(c as int - '0' as int + 52)
    else if c == '-' then Some(62)
    else if c == '_' then Some(63)
    else None
  }

  function Encode(b: string): (s: string)
    requires Bytes(b)
    ensures forall i :: 0 <= i < |s| ==> SymbolValue(s[i]).Some?
  {
    if b == [] then []
    else
      var x := b[0] as int;
      if |b| == 1 then [Symbol(x / 4), Symbol(x % 4 * 16)]
      else
        var y := b[1] as int;
        if |b| == 2 then [Symbol(x / 4), Symbol(x % 4 * 16 + y / 16), Symbol(y % 16 * 4)]
        else
          var z := b[2] as int;
          Quad(x, y, z) + Encode(b[3..])
  }

  function Quad(x: nat, y: nat, z: nat): (s: string)
    requires x < 256 && y < 256 && z < 256
    ensures |s| == 4 && forall i :: 0 <= i < 4 ==> SymbolValue(s[i]).Some?
  {
    [Symbol(x / 4), Symbol(x % 4 * 16 + y / 16), Symbol(y % 16 * 4 + z / 64), Symbol(z % 64)]
  }

  /** The decoder skips line breaks wherever they stand. */
  function SkipBreaks(s: string): string {
    if s == [] then []
    else if s[0] == '\r' || s[0] == '\n' then SkipBreaks(s[1..])
    else [s[0]] + SkipBreaks(s[1..])
  }

  /** Four symbols make three bytes; the bits that are left over at the end are ignored. */
  function DecodeSymbols(s: string): Option<string> {
    if s == [] then Some([])
    else if |s| == 1 then None
    else
      match (SymbolValue(s[0]), SymbolValue(s[1]))
      case (Some(a), Some(b)) =>
        var x := (a * 4 + b / 16) as char;
        if |s| == 2 then Some([x])
        else (
          match SymbolValue(s[2])
          case None => None
          case Some(c) =>
            var y := (b % 16 * 16 + c / 4) as char;
            if |s| == 3 then Some([x, y])
            else
              match (SymbolValue(s[3]), DecodeSymbols(s[4..]))
              case (Some(d), Some(rest)) => Some([x, y, (c % 4 * 64 + d) as char] + rest)
              case _ => None
        )
      case _ => None
  }

  function Decode(s: string): Option<string> {
    DecodeSymbols(SkipBreaks(s))
  }

  lemma {:induction false} NoBreaks(s: string)
    requires forall i :: 0 <= i < |s| ==> SymbolValue(s[i]).Some?
    ensures SkipBreaks(s) == s
  {
    if s == [] {
    } else {
      NoBreaks(s[1..]);
      assert s == [s[0]] + s[1..];
    }
  }

  /** Three bytes cut into four sextets and put together again. */
  lemma Group(x: nat, y: nat, z: nat)
    requires x < 256 && y < 256 && z < 256
    ensures var a, b, c, d := x / 4, x % 4 * 16 + y / 16, y % 16 * 4 + z / 64, z % 64;
            && a < 64 && b < 64 && c < 64 && d < 64
            && a * 4 + b / 16 == x && b % 16 * 16 + c / 4 == y && c % 4 * 64 + d == z
  {
  }

  lemma QuadSymbols(a: nat, b: nat, c: nat, d: nat, s: string)
    requires a < 64 && b < 64 && c < 64 && d < 64 && DecodeSymbols(s).Some?
    ensures DecodeSymbols([Symbol(a), Symbol(b), Symbol(c), Symbol(d)] + s)
         == Some([(a * 4 + b / 16) as char, (b % 16 * 16 + c / 4) as char, (c % 4 * 64 + d) as char]
                 + DecodeSymbols(s).value)
  {
    hide Symbol;
    hide SymbolValue;
    var t := [Symbol(a), Symbol(b), Symbol(c), Symbol(d)] + s;
    assert t[4..] == s;
  }

  lemma QuadRead(x: nat, y: nat, z: nat, s: string)
    requires x < 256 && y < 256 && z < 256 && DecodeSymbols(s).Some?
    ensures DecodeSymbols(Quad(x, y, z) + s) == Some([x as char, y as char, z as char] + DecodeSymbols(s).value)
  {
    hide Symbol;
    hide SymbolValue;
    var t := Quad(x, y, z) + s;
    var a, b, c, d := x / 4, x % 4 * 16 + y / 16, y % 16 * 4 + z / 64, z % 64;
    Group(x, y, z);
    QuadSymbols(a, b, c, d, s);
    assert t == [Symbol(a), Symbol(b), Symbol(c), Symbol(d)] + s;
  }

  lemma {:induction false} SymbolsRoundTrip(b: string)
    requires Bytes(b)
    ensures DecodeSymbols(Encode(b)) == Some(b)
  {
    hide Symbol;
    hide SymbolValue;
    hide DecodeSymbols;
    if |b| >= 3 {
      SymbolsRoundTrip(b[3..]);
      QuadRead(b[0] as int, b[1] as int, b[2] as int, Encode(b[3..]));
      assert b == [b[0], b[1], b[2]] + b[3..];
    } else {
      RestRoundTrip(b);
    }
  }

  lemma TwoRead(a: nat, b: nat)
    requires a < 64 && b < 64
    ensures DecodeSymbols([Symbol(a), Symbol(b)]) == Some([(a * 4 + b / 16) as char])
  {
    hide Symbol;
    hide SymbolValue;
  }

  lemma ThreeRead(a: nat, b: nat, c: nat)
    requires a < 64 && b < 64 && c < 64
    ensures DecodeSymbols([Symbol(a), Symbol(b), Symbol(c)])
         == Some([(a * 4 + b / 16) as char, (b % 16 * 16 + c / 4) as char])
  {
    hide Symbol;
    hide SymbolValue;
  }

  lemma EncodeRest(x: nat, y: nat)
    requires x < 256 && y < 256
    ensures Encode([x as char]) == [Symbol(x / 4), Symbol(x % 4 * 16)]
    ensures Encode([x as char, y as char]) == [Symbol(x / 4), Symbol(x % 4 * 16 + y / 16), Symbol(y % 16 * 4)]
  {
    hide Symbol;
  }

  lemma OneByteRead(x: nat)
    requires x < 256
    ensures DecodeSymbols(Encode([x as char])) == Some([x as char])
  {
    hide Symbol;
    hide DecodeSymbols;
    EncodeRest(x, 0);
    hide Encode;
    Group(x, 0, 0);
    TwoRead(x / 4, x % 4 * 16);
  }

  lemma TwoBytesRead(x: nat, y: nat)
    requires x < 256 && y < 256
    ensures DecodeSymbols(Encode([x as char, y as char])) == Some([x as char, y as char])
  {
    hide Symbol;
    hide DecodeSymbols;
    EncodeRest(x, y);
    hide Encode;
    Group(x, y, 0);
    ThreeRead(x / 4, x % 4 * 16 + y / 16, y % 16 * 4);
  }

  lemma NothingRead()
    ensures Encode([]) == [] && DecodeSymbols([]) == Some([])
  {
  }

  lemma RestRoundTrip(b: string)
    requires Bytes(b) && |b| < 3
    ensures DecodeSymbols(Encode(b)) == Some(b)
  {
    hide DecodeSymbols;
    hide Encode;
    if b == [] {
      NothingRead();
    } else if |b| == 1 {
      OneByteRead(b[0] as int);
      assert b == [b[0]];
    } else {
      TwoBytesRead(b[0] as int, b[1] as int);
      assert b == [b[0], b[1]];
    }
  }

  /** Decoding inverts encoding. */
  lemma RoundTrip(b: string)
    requires Bytes(b)
    ensures Decode(Encode(b)) == Some(b) && '.' !in Encode(b)
  {
    hide DecodeSymbols;
    hide Symbol;
    NoBreaks(Encode(b));
    SymbolsRoundTrip(b);
  }

  /** The decoder accepts more than the encoder writes: line breaks and stray low bits. */
  lemma Lenient()
    ensures Decode("QR") == Some("A") && Decode("Q\nQ") == Some("A") && Encode("A") == "QQ"
  {
    assert SkipBreaks("Q\nQ") == "QQ";
  }

  // ----- exactly what is decoded -----

  const ALPHABET: string := UPPER + LOWER + "0123456789-_"

  /** The symbols are the alphabet in its order. */
  lemma AlphabetOrder(n: nat)
    requires n < 64
    ensures |ALPHABET| == 64 && SymbolValue(ALPHABET[n]) == Some(n)
  {
    if n >= 52 {
      assert ALPHABET[n] == "0123456789-_"[n - 52];
    }
  }

  /** ... and there are no others. */
  lemma AlphabetOnly(c: char)
    ensures c in ALPHABET <==> SymbolValue(c).Some?
  {
    Letters(c);
    assert c in "0123456789-_" <==> '0' <= c <= '9' || c == '-' || c == '_';
  }

  /** Line breaks are transparent wherever they stand. */
  lemma BreaksIgnored(a: string, c: char, b: string)
    requires c == '\n' || c == '\r'
    ensures Decode(a + [c] + b) == Decode(a + b)
  {
    BreakSkipped(a, c, b);
  }

  lemma {:induction false} BreakSkipped(a: string, c: char, b: string)
    requires c == '\n' || c == '\r'
    ensures SkipBreaks(a + [c] + b) == SkipBreaks(a + b)
  {
    if a == [] {
      assert a + [c] + b == [c] + b && a + b == b;
      assert ([c] + b)[1..] == b;
    } else {
      BreakSkipped(a[1..], c, b);
      assert (a + [c] + b)[1..] == a[1..] + [c] + b;
      assert (a + b)[1..] == a[1..] + b;
    }
  }

  predicate AllSymbols(s: string) {
    forall i :: 0 <= i < |s| ==> s[i] in ALPHABET
  }

  predicate Proper(s: string) {
    forall i :: 0 <= i < |s| ==> SymbolValue(s[i]).Some?
  }

  /** A text without line breaks is decoded exactly if it consists of symbols and is not one longer
      than whole groups of four. */
  lemma DecodesExactly(s: string)
    requires '\n' !in s && '\r' !in s
    ensures Decode(s).Some? <==> AllSymbols(s) && |s| % 4 != 1
  {
    BreakFree(s);
    SymbolsDecode(s);
    forall c: char ensures c in ALPHABET <==> SymbolValue(c).Some? {
      AlphabetOnly(c);
    }
    hide SymbolValue;
  }

  lemma {:induction false} BreakFree(s: string)
    requires '\n' !in s && '\r' !in s
    ensures SkipBreaks(s) == s
  {
    if s == [] {
    } else {
      BreakFree(s[1..]);
      assert s == [s[0]] + s[1..];
    }
  }

  lemma {:induction false} SymbolsDecode(s: string)
    ensures DecodeSymbols(s).Some? <==> Proper(s) && |s| % 4 != 1
  {
    hide SymbolValue;
    hide DecodeSymbols;
    if |s| >= 4 {
      SymbolsDecode(s[4..]);
      ProperGroup(s);
      GroupDecodes(s);
      hide Proper;
    } else {
      RestDecodes(s);
    }
  }

  lemma GroupDecodes(s: string)
    requires |s| >= 4
    ensures DecodeSymbols(s).Some? <==>
            && SymbolValue(s[0]).Some? && SymbolValue(s[1]).Some? && SymbolValue(s[2]).Some?
            && SymbolValue(s[3]).Some? && DecodeSymbols(s[4..]).Some?
  {
    hide SymbolValue;
  }

  lemma RestDecodes(s: string)
    requires |s| < 4
    ensures DecodeSymbols(s).Some? <==> Proper(s) && |s| != 1
  {
    hide SymbolValue;
  }

  lemma ProperGroup(s: string)
    requires |s| >= 4
    ensures Proper(s) <==>
            && SymbolValue(s[0]).Some? && SymbolValue(s[1]).Some? && SymbolValue(s[2]).Some?
            && SymbolValue(s[3]).Some? && Proper(s[4..])
  {
    hide SymbolValue;
    var t := s[4..];
    assert forall i :: 0 <= i < |t| ==> t[i] == s[i + 4];
    if Proper(t) {
      forall i | 4 <= i < |s| ensures SymbolValue(s[i]).Some? {
        assert t[i - 4] == s[i];
      }
    }
  }

  /** The text is the encoding of the bytes, up to the spare low bits of the last symbol of an
      incomplete group. */
  predicate Spells(b: string, s: string)
    requires Bytes(b)
  {
    |Encode(b)| == |s| && forall i :: 0 <= i < |s| && (i < |s| - 1 || |s| % 4 == 0) ==> Encode(b)[i] == s[i]
  }

  /** What is decoded is spelled by the text. */
  lemma DecodedSpells(s: string, b: string)
    requires '\n' !in s && '\r' !in s && Decode(s) == Some(b)
    ensures Bytes(b) && Spells(b, s)
  {
    BreakFree(s);
    SymbolsSpell(s);
  }

  lemma {:induction false} SymbolsSpell(s: string)
    requires DecodeSymbols(s).Some?
    ensures Bytes(DecodeSymbols(s).value) && Spells(DecodeSymbols(s).value, s)
  {
    hide SymbolValue;
    hide DecodeSymbols;
    hide Encode;
    hide Spells;
    if |s| >= 4 {
      GroupDecodes(s);
      SymbolsSpell(s[4..]);
      GroupSpells(s);
      SpellsGroup(DecodeSymbols(s).value, s, DecodeSymbols(s[4..]).value);
    } else {
      RestDecodes(s);
      RestSpells(s);
    }
  }

  lemma SpellsGroup(b: string, s: string, rest: string)
    requires Bytes(b) && Bytes(rest) && |s| >= 4 && Encode(b) == s[..4] + Encode(rest) && Spells(rest, s[4..])
    ensures Spells(b, s)
  {
    hide Encode;
    var t := s[4..];
    forall i | 0 <= i < |s| && (i < |s| - 1 || |s| % 4 == 0) ensures Encode(b)[i] == s[i] {
      if i >= 4 {
        assert Encode(rest)[i - 4] == t[i - 4];
      }
    }
  }

  /** Four symbols joined to three bytes and cut again. */
  lemma Sextets(a: nat, b: nat, c: nat, d: nat)
    requires a < 64 && b < 64 && c < 64 && d < 64
    ensures var x, y, z := a * 4 + b / 16, b % 16 * 16 + c / 4, c % 4 * 64 + d;
            && x < 256 && y < 256 && z < 256
            && x / 4 == a && x % 4 * 16 + y / 16 == b && y % 16 * 4 + z / 64 == c && z % 64 == d
  {
  }

  lemma ValueSymbol(c: char)
    requires SymbolValue(c).Some?
    ensures Symbol(SymbolValue(c).value) == c
  {
  }

  lemma GroupValue(s: string)
    requires |s| >= 4 && DecodeSymbols(s).Some?
    requires SymbolValue(s[0]).Some? && SymbolValue(s[1]).Some? && SymbolValue(s[2]).Some? && SymbolValue(s[3]).Some?
    requires DecodeSymbols(s[4..]).Some?
    ensures var a, b, c, d :=
              SymbolValue(s[0]).value, SymbolValue(s[1]).value, SymbolValue(s[2]).value, SymbolValue(s[3]).value;
            DecodeSymbols(s).value ==
            [(a * 4 + b / 16) as char, (b % 16 * 16 + c / 4) as char, (c % 4 * 64 + d) as char]
            + DecodeSymbols(s[4..]).value
  {
    hide SymbolValue;
  }

  lemma GroupSpells(s: string)
    requires |s| >= 4 && DecodeSymbols(s).Some? && DecodeSymbols(s[4..]).Some? && Bytes(DecodeSymbols(s[4..]).value)
    ensures Bytes(DecodeSymbols(s).value)
    ensures Encode(DecodeSymbols(s).value) == s[..4] + Encode(DecodeSymbols(s[4..]).value)
  {
    hide Symbol;
    hide SymbolValue;
    hide DecodeSymbols;
    GroupDecodes(s);
    GroupValue(s);
    var a, b := SymbolValue(s[0]).value, SymbolValue(s[1]).value;
    var c, d := SymbolValue(s[2]).value, SymbolValue(s[3]).value;
    Sextets(a, b, c, d);
    ValueSymbol(s[0]);
    ValueSymbol(s[1]);
    ValueSymbol(s[2]);
    ValueSymbol(s[3]);
    var x, y, z := a * 4 + b / 16, b % 16 * 16 + c / 4, c % 4 * 64 + d;
    assert Quad(x, y, z) == [s[0], s[1], s[2], s[3]] == s[..4];
    EncodeGroup(x, y, z, DecodeSymbols(s[4..]).value);
    hide Encode;
  }

  lemma EncodeGroup(x: nat, y: nat, z: nat, rest: string)
    requires x < 256 && y < 256 && z < 256 && Bytes(rest)
    ensures var b := [x as char, y as char, z as char] + rest;
            Bytes(b) && Encode(b) == Quad(x, y, z) + Encode(rest)
  {
    hide Symbol;
    hide SymbolValue;
    hide Quad;
    var b := [x as char, y as char, z as char] + rest;
    assert b[3..] == rest;
  }

  lemma RestValue(s: string)
    requires 2 <= |s| < 4 && DecodeSymbols(s).Some?
    requires SymbolValue(s[0]).Some? && SymbolValue(s[1]).Some? && SymbolValue(s[|s| - 1]).Some?
    ensures var a, b, c := SymbolValue(s[0]).value, SymbolValue(s[1]).value, SymbolValue(s[|s| - 1]).value;
            DecodeSymbols(s).value ==
            [(a * 4 + b / 16) as char] + if |s| == 2 then [] else [(b % 16 * 16 + c / 4) as char]
  {
    hide SymbolValue;
  }

  lemma OneByteSpells(s: string, x: nat)
    requires |s| == 2 && x < 256 && Symbol(x / 4) == s[0]
    ensures Bytes([x as char]) && Spells([x as char], s)
  {
    hide Symbol;
    EncodeRest(x, 0);
    hide Encode;
  }

  lemma TwoBytesSpell(s: string, x: nat, y: nat)
    requires |s| == 3 && x < 256 && y < 256 && Symbol(x / 4) == s[0] && Symbol(x % 4 * 16 + y / 16) == s[1]
    ensures Bytes([x as char, y as char]) && Spells([x as char, y as char], s)
  {
    hide Symbol;
    EncodeRest(x, y);
    hide Encode;
  }

  lemma RestSpells(s: string)
    requires |s| < 4 && DecodeSymbols(s).Some?
    ensures Bytes(DecodeSymbols(s).value) && Spells(DecodeSymbols(s).value, s)
  {
    RestDecodes(s);
    if 2 <= |s| {
      hide Symbol;
      hide SymbolValue;
      hide DecodeSymbols;
      hide Encode;
      hide Spells;
      var a, b, c := SymbolValue(s[0]).value, SymbolValue(s[1]).value, SymbolValue(s[|s| - 1]).value;
      RestValue(s);
      Sextets(a, b, c, 0);
      ValueSymbol(s[0]);
      ValueSymbol(s[1]);
      var x, y := a * 4 + b / 16, b % 16 * 16 + c / 4;
      if |s| == 2 {
        OneByteSpells(s, x);
        assert DecodeSymbols(s).value == [x as char];
      } else {
        TwoBytesSpell(s, x, y);
        assert DecodeSymbols(s).value == [x as char, y as char];
      }
    }
  }

  // ----- the order of the bits -----

  lemma Weights(x: nat, y: nat, z: nat)
    requires x < 256 && y < 256 && z < 256
    ensures var p, q, r, t := x / 4, x % 4 * 16 + y / 16, y % 16 * 4 + z / 64, z % 64;
            && p < 64 && q < 64 && r < 64 && t < 64
            && p * 0x4_0000 + q * 0x1000 + r * 0x40 + t == x * 0x1_0000 + y * 0x100 + z
  {
  }

  /** Four symbols for a 24-bit number, most significant digit first. */
  ghost predicate Denote(s: string, n: nat) {
    exists p: nat, q: nat, r: nat, t: nat ::
      && p < 64 && q < 64 && r < 64 && t < 64
      && p * 0x4_0000 + q * 0x1000 + r * 0x40 + t == n && s == [Symbol(p), Symbol(q), Symbol(r), Symbol(t)]
  }

  lemma QuadDenotes(x: nat, y: nat, z: nat)
    requires x < 256 && y < 256 && z < 256
    ensures Denote(Quad(x, y, z), x * 0x1_0000 + y * 0x100 + z)
  {
    hide Symbol;
    Weights(x, y, z);
  }

  /** Three bytes, most significant first, and their four symbols are the same number. */
  lemma BigEndian(x: nat, y: nat, z: nat, rest: string)
    requires x < 256 && y < 256 && z < 256 && Bytes(rest)
    ensures var b := [x as char, y as char, z as char] + rest;
            && Bytes(b) && |Encode(b)| == 4 + |Encode(rest)| && Encode(b)[4..] == Encode(rest)
            && Denote(Encode(b)[..4], x * 0x1_0000 + y * 0x100 + z)
  {
    hide Encode;
    hide Quad;
    hide Denote;
    EncodeGroup(x, y, z, rest);
    QuadDenotes(x, y, z);
    assert (Quad(x, y, z) + Encode(rest))[..4] == Quad(x, y, z);
  }

  /** An incomplete group is written like the group filled up with zero bytes, and cut. */
  lemma PaddedRest(x: nat, y: nat)
    requires x < 256 && y < 256
    ensures Encode([x as char]) == Encode([x as char, 0 as char, 0 as char])[..2]
    ensures Encode([x as char, y as char]) == Encode([x as char, y as char, 0 as char])[..3]
  {
    hide Encode;
    hide Symbol;
    EncodeRest(x, y);
    NothingRead();
    EncodeGroup(x, 0, 0, []);
    EncodeGroup(x, y, 0, []);
    assert [x as char, 0 as char, 0 as char] + [] == [x as char, 0 as char, 0 as char];
    assert [x as char, y as char, 0 as char] + [] == [x as char, y as char, 0 as char];
  }
}
