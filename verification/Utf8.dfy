/** UTF-8 as RFC 3629 section 3 defines it: the encoder and decoder of single
    scalar values, and their agreement. */
module Utf8 {
  import opened Prelude

  /** A Unicode scalar value: a code point that is not a surrogate. */
  predicate IsScalarValue(v: int) {
    0 <= v < 0xD800 || 0xDFFF < v <= 0x10FFFF
  }

  /** Go's conversion of a uint64 below 2^32 to the signed type rune. */
  function ToRune(v: nat): int
    requires v < 0x1_0000_0000
  {
    if v < 0x8000_0000 then v else v - 0x1_0000_0000
  }

  function Byte(b: nat): char
    requires b < 256
  {
    b as char
  }

  /** utf8.AppendRune for a valid rune. */
  function Encode(v: int): (s: string)
    requires IsScalarValue(v)
    ensures 1 <= |s| <= 4
    ensures forall i :: 0 <= i < |s| ==> s[i] as int < 256
  {
    if v < 0x80 then [Byte(v)]
    else if v < 0x800 then [Byte(0xC0 + v / 64), Byte(0x80 + v % 64)]
    else if v < 0x1_0000 then [Byte(0xE0 + v / 4096), Byte(0x80 + v / 64 % 64), Byte(0x80 + v % 64)]
    else [Byte(0xF0 + v / 262144), Byte(0x80 + v / 4096 % 64), Byte(0x80 + v / 64 % 64), Byte(0x80 + v % 64)]
  }

  predicate IsCont(c: char) {
    0x80 <= c as int < 0xC0
  }

  function Low6(c: char): nat
    requires IsCont(c)
  {
    c as int - 0x80
  }

  datatype Rune = Rune(value: int, size: nat)

  /** utf8.DecodeRuneInString: the scalar value at the head of `s` and its width;
      None where Go reports the error rune with width 1 (or 0 on no input). */
  function Decode(s: string): (r: Option<Rune>)
    ensures r.Some? ==> IsScalarValue(r.value.value) && 1 <= r.value.size <= 4 && r.value.size <= |s|
  {
    if s == [] then None
    else
      var b := s[0] as int;
      if b < 0x80 then Some(Rune(b, 1))
      else if 0xC2 <= b < 0xE0 && |s| >= 2 && IsCont(s[1]) then
        Some(Rune((b - 0xC0) * 64 + Low6(s[1]), 2))
      else if 0xE0 <= b < 0xF0 && |s| >= 3 && IsCont(s[1]) && IsCont(s[2]) then
        var v := (b - 0xE0) * 4096 + Low6(s[1]) * 64 + Low6(s[2]);
        if v >= 0x800 && IsScalarValue(v) then Some(Rune(v, 3)) else None
      else if 0xF0 <= b < 0xF5 && |s| >= 4 && IsCont(s[1]) && IsCont(s[2]) && IsCont(s[3]) then
        var v := (b - 0xF0) * 262144 + Low6(s[1]) * 4096 + Low6(s[2]) * 64 + Low6(s[3]);
        if v >= 0x1_0000 && IsScalarValue(v) then Some(Rune(v, 4)) else None
      else None
  }

  lemma Bits2(v: nat)
    requires 0x80 <= v < 0x800
    ensures 2 <= v / 64 < 32 && v == v / 64 * 64 + v % 64
  {
  }

  lemma Bits3(v: nat)
    requires 0x800 <= v < 0x1_0000
    ensures v / 4096 < 16 && v / 64 % 64 < 64 && v == v / 4096 * 4096 + v / 64 % 64 * 64 + v % 64
  {
    assert v / 4096 == v / 64 / 64;
  }

  lemma Bits4(v: nat)
    requires 0x1_0000 <= v <= 0x10FFFF
    ensures v / 262144 < 5 && v / 4096 % 64 < 64 && v / 64 % 64 < 64
    ensures v == v / 262144 * 262144 + v / 4096 % 64 * 4096 + v / 64 % 64 * 64 + v % 64
  {
    assert v / 4096 == v / 64 / 64 && v / 262144 == v / 4096 / 64;
  }

  lemma DecodeEncode3(v: int, rest: string)
    requires IsScalarValue(v) && 0x800 <= v < 0x1_0000
    ensures Decode(Encode(v) + rest) == Some(Rune(v, 3))
  {
    var s := Encode(v) + rest;
    Bits3(v);
    var a, b, c := v / 4096, v / 64 % 64, v % 64;
    assert s[0] == Byte(0xE0 + a) && s[1] == Byte(0x80 + b) && s[2] == Byte(0x80 + c);
  }

  lemma DecodeEncode4(v: int, rest: string)
    requires IsScalarValue(v) && 0x1_0000 <= v
    ensures Decode(Encode(v) + rest) == Some(Rune(v, 4))
  {
    var s := Encode(v) + rest;
    Bits4(v);
    var a, b, c, d := v / 262144, v / 4096 % 64, v / 64 % 64, v % 64;
    assert s[0] == Byte(0xF0 + a) && s[1] == Byte(0x80 + b) && s[2] == Byte(0x80 + c) && s[3] == Byte(0x80 + d);
  }

  lemma EncodedLength(v: int)
    requires IsScalarValue(v)
    ensures |Encode(v)| == if v < 0x80 then 1 else if v < 0x800 then 2 else if v < 0x1_0000 then 3 else 4
  {
  }

  /** Decoding inverts encoding, whatever follows. */
  lemma DecodeEncode(v: int, rest: string)
    requires IsScalarValue(v)
    ensures Decode(Encode(v) + rest) == Some(Rune(v, |Encode(v)|))
  {
    EncodedLength(v);
    if v >= 0x1_0000 {
      hide Encode;
      hide Decode;
      DecodeEncode4(v, rest);
    } else if v >= 0x800 {
      hide Encode;
      hide Decode;
      DecodeEncode3(v, rest);
    } else if v >= 0x80 {
      Bits2(v);
      var s := Encode(v) + rest;
      assert s[0] == Byte(0xC0 + v / 64) && s[1] == Byte(0x80 + v % 64);
    } else {
      assert (Encode(v) + rest)[0] == Byte(v);
    }
  }

  lemma EncodeDecode3(s: string)
    requires Decode(s).Some? && Decode(s).value.size == 3
    ensures Encode(Decode(s).value.value) == s[..3]
  {
    Split3(s[0] as int - 0xE0, Low6(s[1]), Low6(s[2]));
    assert s[..3] == [s[0], s[1], s[2]];
  }

  lemma EncodeDecode4(s: string)
    requires Decode(s).Some? && Decode(s).value.size == 4
    ensures Encode(Decode(s).value.value) == s[..4]
  {
    Split4(s[0] as int - 0xF0, Low6(s[1]), Low6(s[2]), Low6(s[3]));
    assert s[..4] == [s[0], s[1], s[2], s[3]];
  }

  /** Encoding inverts decoding: the decoder accepts nothing but shortest-form encodings. */
  lemma EncodeDecode(s: string)
    ensures Decode(s).Some? ==> Encode(Decode(s).value.value) == s[..Decode(s).value.size]
  {
    if Decode(s).Some? {
      var n := Decode(s).value.size;
      if n == 4 {
        hide Encode;
        hide Decode;
        EncodeDecode4(s);
      } else if n == 3 {
        hide Encode;
        hide Decode;
        EncodeDecode3(s);
      } else if n == 2 {
        Split2(s[0] as int - 0xC0, Low6(s[1]));
        assert s[..2] == [s[0], s[1]];
      }
    }
  }

  lemma Split2(a: nat, b: nat)
    requires b < 64
    ensures (a * 64 + b) / 64 == a && (a * 64 + b) % 64 == b
  {
  }

  lemma Split3(a: nat, b: nat, c: nat)
    requires b < 64 && c < 64
    ensures var v := a * 4096 + b * 64 + c; v / 4096 == a && v / 64 % 64 == b && v % 64 == c
  {
    Split2(a, b);
    Split2(a * 64 + b, c);
    var w := a * 64 + b;
    assert (w * 64 + c) / 4096 == w / 64;
  }

  lemma Split4(a: nat, b: nat, c: nat, d: nat)
    requires b < 64 && c < 64 && d < 64
    ensures var v := a * 262144 + b * 4096 + c * 64 + d;
            v / 262144 == a && v / 4096 % 64 == b && v / 64 % 64 == c && v % 64 == d
  {
    Split3(a, b, c);
    var w := a * 4096 + b * 64 + c;
    Split2(w, d);
    assert (w * 64 + d) / 262144 == w / 4096 && (w * 64 + d) / 4096 == w / 64;
  }

  /** utf8.ValidString. */
  predicate Valid(s: string) {
    s == [] || (Decode(s).Some? && Valid(s[Decode(s).value.size..]))
  }

  predicate Ascii(s: string) {
    forall i :: 0 <= i < |s| ==> (s[i] as int) < 0x80
  }

  lemma {:induction false} AsciiValid(s: string)
    requires Ascii(s)
    ensures Valid(s)
  {
    if s == [] {
    } else {
      AsciiValid(s[1..]);
    }
  }

  /** The decoder looks at no byte beyond the rune it returns. */
  lemma DecodePrefix(s: string, rest: string)
    requires Decode(s).Some?
    ensures Decode(s + rest) == Decode(s)
  {
    assert forall i :: 0 <= i < |s| ==> (s + rest)[i] == s[i];
  }
}
