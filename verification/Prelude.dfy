/** Types and sequence facts shared by every component. A Go string is a Dafny
    `string` whose characters stand for bytes, 0 to 255. */
module Prelude {
  datatype Option<+T> = None | Some(value: T)

  datatype Result<+T, +E> = Ok(value: T) | Err(error: E)

  /** Every character stands for a byte. */
  predicate Bytes(s: string) {
    forall i :: 0 <= i < |s| ==> (s[i] as int) < 256
  }

  /** The 26 letters from `a` on. */
  function Alphabet(a: char): string
    requires a as int < 128
  {
    seq(26, i requires 0 <= i < 26 => (a as int + i) as char)
  }

  const UPPER := Alphabet('A')
  const LOWER := Alphabet('a')

  /** The letters of the two alphabets. */
  lemma Letters(c: char)
    ensures c in UPPER <==> 'A' <= c <= 'Z'
    ensures c in LOWER <==> 'a' <= c <= 'z'
  {
    if 'A' <= c <= 'Z' { assert UPPER[c as int - 'A' as int] == c; }
    if 'a' <= c <= 'z' { assert LOWER[c as int - 'a' as int] == c; }
  }

  /** The number of newline bytes in `s`. */
  function Newlines(s: string): nat {
    if s == [] then 0 else Newlines(s[..|s| - 1]) + (if s[|s| - 1] == '\n' then 1 else 0)
  }

  /** The first byte and the rest of a suffix. */
  lemma TailStep(s: string, i: nat)
    requires i < |s|
    ensures s[i..] != [] && s[i..][0] == s[i] && s[i..][1..] == s[i + 1..]
  {
  }

  lemma PrefixStep(s: string, i: nat)
    requires i < |s|
    ensures Newlines(s[..i + 1]) == Newlines(s[..i]) + (if s[i] == '\n' then 1 else 0)
  {
    assert s[..i + 1][..i] == s[..i];
  }

  /** Go's strings.Join. */
  function Join(parts: seq<string>, sep: string): string {
    if parts == [] then ""
    else if |parts| == 1 then parts[0]
    else parts[0] + sep + Join(parts[1..], sep)
  }

  lemma {:induction false} JoinLast(parts: seq<string>, last: string, sep: string)
    ensures Join(parts + [last], sep) == if parts == [] then last else Join(parts, sep) + (sep + last)
  {
    if parts == [] {
    } else {
      var rest := parts[1..];
      assert (parts + [last])[1..] == rest + [last];
      JoinLast(rest, last, sep);
      if rest == [] {
        assert parts == [parts[0]];
      } else {
        assert parts[0] + sep + (Join(rest, sep) + (sep + last)) == parts[0] + sep + Join(rest, sep) + (sep + last);
      }
    }
  }

  /** A text is cut in one way at the first occurrence of a byte ... */
  lemma CutFirst(a: string, x: string, b: string, y: string, c: char)
    requires c !in a && c !in b && a + ([c] + x) == b + ([c] + y)
    ensures a == b && x == y
  {
    var s := a + ([c] + x);
    assert s[|a|] == c && s[|b|] == c;
    assert forall i :: 0 <= i < |b| ==> s[i] == b[i] && b[i] in b;
    assert forall i :: 0 <= i < |a| ==> s[i] == a[i] && a[i] in a;
    assert s[..|a|] == a && s[..|b|] == b && s[|a| + 1..] == x && s[|b| + 1..] == y;
  }

  /** ... and at the last one. */
  lemma CutLast(a: string, x: string, b: string, y: string, c: char)
    requires c !in x && c !in y && a + ([c] + x) == b + ([c] + y)
    ensures a == b && x == y
  {
    var s := a + ([c] + x);
    assert s[|a|] == c && s[|b|] == c;
    assert forall i :: |a| < i < |s| ==> s[i] == x[i - |a| - 1] && s[i] in x;
    assert forall i :: |b| < i < |s| ==> s[i] == y[i - |b| - 1] && s[i] in y;
    assert s[..|a|] == a && s[..|b|] == b && s[|a| + 1..] == x && s[|b| + 1..] == y;
  }

  /** Go's strings.ContainsAny with a set of bytes. */
  predicate ContainsAny(s: string, cs: string) {
    exists i :: 0 <= i < |s| && s[i] in cs
  }

  /** Go's strings.Count for a one-byte needle. */
  function Count(s: string, c: char): nat {
    if s == [] then 0 else (if s[0] == c then 1 else 0) + Count(s[1..], c)
  }

  /** Go's strings.ReplaceAll of one byte by nothing. */
  function Remove(s: string, c: char): (r: string) {
    if s == [] then []
    else if s[0] == c then Remove(s[1..], c)
    else [s[0]] + Remove(s[1..], c)
  }

  lemma RemoveAbsent(s: string, c: char)
    requires c !in s
    ensures Remove(s, c) == s
  {
    if s == [] {
    } else {
      RemoveAbsent(s[1..], c);
      assert s == [s[0]] + s[1..];
    }
  }

  /** Text appended to a right-nested concatenation. */
  lemma AppendRight<T>(a: seq<T>, b: seq<T>, c: seq<T>, d: seq<T>, post: seq<T>)
    ensures a + (b + (c + d)) + post == a + (b + (c + (d + post)))
  {
  }

  predicate IsPrefix<T(==)>(p: seq<T>, s: seq<T>) {
    |p| <= |s| && s[..|p|] == p
  }

  lemma PrefixTransitive<T>(a: seq<T>, b: seq<T>, c: seq<T>)
    requires IsPrefix(a, b) && IsPrefix(b, c)
    ensures IsPrefix(a, c)
  {
    assert c[..|a|] == b[..|a|];
  }

  lemma PrefixesComparable<T>(a: seq<T>, b: seq<T>, c: seq<T>)
    requires IsPrefix(a, c) && IsPrefix(b, c)
    ensures IsPrefix(a, b) || IsPrefix(b, a)
  {
    if |a| <= |b| {
      assert b[..|a|] == c[..|a|];
    } else {
      assert a[..|b|] == c[..|b|];
    }
  }
}

/** Decimal and hexadecimal integers, as strconv reads and prints them. */
module Numerals {
  import opened Prelude

  predicate IsDigit(c: char) {
    '0' <= c <= '9'
  }

  function DigitValue(c: char): nat
    requires IsDigit(c)
  {
    c as int - '0' as int
  }

  predicate AllDigits(s: string) {
    forall i :: 0 <= i < |s| ==> IsDigit(s[i])
  }

  /** The value of a string of decimal digits. */
  function Digits(s: string): (n: int)
    requires AllDigits(s)
    ensures n >= 0
  {
    if s == [] then 0 else 10 * Digits(s[..|s| - 1]) + DigitValue(s[|s| - 1])
  }

  /** The decimal digits of `n`, without leading zeros. */
  function DecimalNat(n: nat): (s: string)
    ensures s != [] && AllDigits(s)
    ensures n > 0 ==> s[0] != '0'
  {
    if n < 10 then [(n + '0' as int) as char]
    else DecimalNat(n / 10) + [(n % 10 + '0' as int) as char]
  }

  function Decimal(n: int): (s: string)
    ensures s != []
  {
    if n < 0 then "-" + DecimalNat(-n) else DecimalNat(n)
  }

  lemma {:induction false} DigitsDecimal(n: nat)
    ensures Digits(DecimalNat(n)) == n
  {
    if n >= 10 {
      DigitsDecimal(n / 10);
      var s := DecimalNat(n);
      assert s[..|s| - 1] == DecimalNat(n / 10);
    } else {
      var s := DecimalNat(n);
      assert s[..0] == [];
      assert Digits(s[..|s| - 1]) == 0;
    }
  }

  const MAX_INT64: int := 0x7FFF_FFFF_FFFF_FFFF
  const MIN_INT64: int := -0x8000_0000_0000_0000

  /** strconv.ParseInt(s, 10, 64). */
  function ParseInt64(s: string): (r: Option<int>)
    ensures r.Some? ==> MIN_INT64 <= r.value <= MAX_INT64
  {
    var neg := s != [] && s[0] == '-';
    var ds := if s != [] && (s[0] == '-' || s[0] == '+') then s[1..] else s;
    if ds == [] || !AllDigits(ds) then None
    else
      var v: int := if neg then -Digits(ds) else Digits(ds);
      if MIN_INT64 <= v <= MAX_INT64 then Some(v) else None
  }

  /** Printing and parsing agree on exactly the 64-bit integers. */
  lemma ParseDecimal(n: int)
    ensures ParseInt64(Decimal(n)) == if MIN_INT64 <= n <= MAX_INT64 then Some(n) else None
  {
    if n < 0 {
      DigitsDecimal(-n);
      assert Decimal(n)[1..] == DecimalNat(-n);
    } else {
      DigitsDecimal(n);
    }
  }

  /** The decimal text of an integer: digits, after a minus sign or not; and different integers
      have different texts. */
  lemma DecimalChars(n: int)
    ensures forall i :: 0 <= i < |Decimal(n)| ==> Decimal(n)[i] == '-' || IsDigit(Decimal(n)[i])
  {
  }

  lemma DecimalInjective(m: int, n: int)
    requires Decimal(m) == Decimal(n)
    ensures m == n
  {
    DigitsDecimal(if m < 0 then -m else m);
    DigitsDecimal(if n < 0 then -n else n);
    if m < 0 { assert Decimal(m)[0] == '-' && Decimal(m)[1..] == DecimalNat(-m); }
    if n < 0 { assert Decimal(n)[0] == '-' && Decimal(n)[1..] == DecimalNat(-n); }
  }

  predicate IsHex(c: char) {
    IsDigit(c) || 'a' <= c <= 'f' || 'A' <= c <= 'F'
  }

  function HexValue(c: char): nat
    requires IsHex(c)
  {
    if IsDigit(c) then c as int - '0' as int
    else if 'a' <= c <= 'f' then c as int - 'a' as int + 10
    else c as int - 'A' as int + 10
  }

  predicate AllHex(s: string) {
    forall i :: 0 <= i < |s| ==> IsHex(s[i])
  }

  function Hex(s: string): nat
    requires AllHex(s)
  {
    if s == [] then 0 else 16 * Hex(s[..|s| - 1]) + HexValue(s[|s| - 1])
  }

  /** strconv.ParseUint(s, 16, 32). */
  function ParseHex32(s: string): Option<nat> {
    if s == [] || !AllHex(s) then None
    else if Hex(s) < 0x1_0000_0000 then Some(Hex(s)) else None
  }

  function Power(b: nat, e: nat): nat {
    if e == 0 then 1 else b * Power(b, e - 1)
  }

  /** The rational m * 10^e reaches the magnitude that rounds to an infinite float64. */
  predicate Overflows(m: nat, e: int) {
    var limit := Power(2, 1024) - Power(2, 970);
    if e >= 0 then m * Power(10, e) >= limit else m >= limit * Power(10, -e)
  }

  function DigitRun(s: string): (n: nat)
    ensures n <= |s| && AllDigits(s[..n])
    ensures n < |s| ==> !IsDigit(s[n])
  {
    if s == [] || !IsDigit(s[0]) then 0 else 1 + DigitRun(s[1..])
  }

  /** The text after a sign, if there is one. */
  function AfterSign(s: string): string {
    if s != [] && (s[0] == '-' || s[0] == '+') then s[1..] else s
  }

  /** No exponent, or a letter, a sign and digits. */
  predicate IsExponent(s: string) {
    s == [] || ((s[0] == 'e' || s[0] == 'E') && AfterSign(s[1..]) != [] && AllDigits(AfterSign(s[1..])))
  }

  function ExponentOf(s: string): int
    requires IsExponent(s)
  {
    if s == [] then 0
    else if s[1] == '-' then -Digits(AfterSign(s[1..])) else Digits(AfterSign(s[1..]))
  }

  /** strconv.ParseFloat succeeds on `s`, for `s` over the bytes a number token can hold. */
  predicate IsFloat(s: string) {
    var s0 := AfterSign(s);
    var n := DigitRun(s0);
    var point := n < |s0| && s0[n] == '.';
    var s2 := if point then s0[n + 1..] else s0[n..];
    var m := if point then DigitRun(s2) else 0;
    n + m > 0 && IsExponent(s2[m..])
    && !Overflows(Digits(s0[..n] + s2[..m]), ExponentOf(s2[m..]) - m)
  }
}
