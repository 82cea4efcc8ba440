/** Compact JSON Web Tokens (section 7.1 of RFC 7515): signing, decoding and verification
    over any signature scheme. */
module Jwt {
  import opened Prelude
  import opened Objects
  import Base64
  import Json
  import Numerals
  import Utf8

  /** A signer. Signing may fail; nothing about the scheme is fixed. */
  datatype Signer = Signer(alg: string, kid: string, sign: string -> Option<string>, verify: (string, string) -> bool)

  /** What signing owes verification: a produced signature is accepted for its message. */
  ghost predicate Sound(s: Signer) {
    && Utf8.Valid(s.alg) && Utf8.Valid(s.kid)
    && forall m :: s.sign(m).Some? ==> Bytes(s.sign(m).value) && s.verify(m, s.sign(m).value)
  }

  datatype Error =
    | PartCount(n: nat) | BadHeader | BadClaims | BadSignature
    | AlgMismatch | KidMismatch | NotVerified

  type Claims = map<string, Json.Value>

  datatype Token = Token(header: Claims, claims: Claims, input: string, signature: string)

  // ----- splitting -----

  /** strings.Split with a one-byte separator. */
  function Split(s: string, sep: char): (r: seq<string>)
    ensures r != []
    ensures Join(r, [sep]) == s
    ensures forall i :: 0 <= i < |r| ==> sep !in r[i]
  {
    if s == [] then [""]
    else
      var r := Split(s[1..], sep);
      if s[0] == sep then
        assert (([""] + r)[1..]) == r;
        [""] + r
      else
        assert ([[s[0]] + r[0]] + r[1..])[1..] == r[1..];
        [[s[0]] + r[0]] + r[1..]
  }

  lemma SplitStep(s: string, sep: char)
    requires s != [] && s[0] != sep
    ensures Split(s, sep) == [[s[0]] + Split(s[1..], sep)[0]] + Split(s[1..], sep)[1..]
  {
  }

  lemma {:induction false} SplitPart(a: string, rest: string, sep: char)
    requires sep !in a
    ensures Split(a, sep) == [a]
    ensures Split(a + ([sep] + rest), sep) == [a] + Split(rest, sep)
  {
    var s := a + ([sep] + rest);
    if a == [] {
      assert s == [sep] + rest;
      assert s[1..] == rest;
    } else {
      SplitPart(a[1..], rest, sep);
      SplitStep(a, sep);
      SplitStep(s, sep);
      hide Split;
      assert s[1..] == a[1..] + ([sep] + rest);
      assert [a[0]] + a[1..] == a;
      assert ([a[1..]] + Split(rest, sep))[1..] == Split(rest, sep);
    }
  }

  lemma SplitThree(a: string, b: string, c: string, sep: char)
    requires sep !in a && sep !in b && sep !in c
    ensures Split(a + [sep] + b + [sep] + c, sep) == [a, b, c]
  {
    hide Split;
    assert a + [sep] + b + [sep] + c == a + ([sep] + (b + ([sep] + c)));
    SplitPart(a, b + ([sep] + c), sep);
    SplitPart(b, c, sep);
    SplitPart(c, [], sep);
  }

  // ----- signing -----

  function Header(s: Signer): (o: Object)
    ensures WellFormed(o) && Encodable(o)
  {
    HeaderEncodable(s);
    Built(HeaderEntries(s))
  }

  function HeaderEntries(s: Signer): seq<Entry> {
    [("alg", Json.Str(s.alg)), ("kid", Json.Str(s.kid)), ("typ", Json.Str("JWT"))]
  }

  lemma HeaderEncodable(s: Signer)
    ensures Encodable(Built(HeaderEntries(s)))
  {
    BuiltEncodable(HeaderEntries(s));
  }

  /** The header holds alg, kid and typ, in this order. */
  lemma HeaderFields(s: Signer)
    ensures Header(s).keys == ["alg", "kid", "typ"]
    ensures Lookup(Header(s), "alg") == Some(Json.Str(s.alg))
    ensures Lookup(Header(s), "kid") == Some(Json.Str(s.kid))
    ensures Lookup(Header(s), "typ") == Some(Json.Str("JWT"))
  {
    hide Built;
    hide Lookup;
    var es := HeaderEntries(s);
    assert KeysIn(es) == ["alg", "kid", "typ"];
    BuiltKeys(es);
    BuiltLookup(es, 0);
    BuiltLookup(es, 1);
    BuiltLookup(es, 2);
  }

  function Segment(o: Object): (s: string)
    requires Encodable(o)
    ensures '.' !in s
  {
    TextBytes(o);
    Base64.RoundTrip(Text(o));
    Base64.Encode(Text(o))
  }

  function SigningInput(s: Signer, claims: Object): string
    requires Encodable(claims)
  {
    Segment(Header(s)) + "." + Segment(claims)
  }

  /** None when the signer fails. */
  function SignJWT(s: Signer, claims: Object): Option<string>
    requires Encodable(claims)
    requires forall m :: s.sign(m).Some? ==> Bytes(s.sign(m).value)
  {
    match s.sign(SigningInput(s, claims))
    case None => None
    case Some(sig) => Some(SigningInput(s, claims) + "." + Base64.Encode(sig))
  }

  // ----- verification -----

  function DecodeSegment(seg: string): Option<Claims> {
    match Base64.Decode(seg)
    case None => None
    case Some(raw) => Json.DecodeObject(raw)
  }

  function DecodeJWT(token: string): Result<Token, Error> {
    var parts := Split(token, '.');
    if |parts| != 3 then Err(PartCount(|parts|))
    else
      match DecodeSegment(parts[0])
      case None => Err(BadHeader)
      case Some(header) =>
        match DecodeSegment(parts[1])
        case None => Err(BadClaims)
        case Some(claims) =>
          match Base64.Decode(parts[2])
          case None => Err(BadSignature)
          case Some(sig) => Ok(Token(header, claims, parts[0] + "." + parts[1], sig))
  }

  /** A map entry asserted to be a string, "" when it is missing or something else. */
  function StringOf(m: Claims, name: string): string {
    if name in m && m[name].Str? then m[name].s else ""
  }

  function VerifyJWT(s: Signer, token: string): Result<Token, Error> {
    match DecodeJWT(token)
    case Err(e) => Err(e)
    case Ok(t) =>
      if StringOf(t.header, "alg") != s.alg then Err(AlgMismatch)
      else if StringOf(t.header, "kid") != s.kid then Err(KidMismatch)
      else if !s.verify(t.input, t.signature) then Err(NotVerified)
      else Ok(t)
  }

  function StringClaim(t: Token, name: string): string {
    StringOf(t.claims, name)
  }

  /** A claim as a 64-bit integer, 0 when it is missing, not a number or not one. */
  function IntClaim(t: Token, name: string): (n: int)
    ensures Numerals.MIN_INT64 <= n <= Numerals.MAX_INT64
  {
    if name in t.claims && t.claims[name].Num? then
      match Numerals.ParseInt64(t.claims[name].lit)
      case None => 0
      case Some(v) => v
    else 0
  }

  // ----- the laws -----

  lemma SegmentRead(o: Object)
    requires Encodable(o)
    ensures DecodeSegment(Segment(o)) == Some(Decoded(o.keys, o.vals, map[]))
  {
    TextBytes(o);
    Base64.RoundTrip(Text(o));
    TextRead(o);
  }

  /** Whatever is signed is decoded: the three parts are found and come back. */
  lemma DecodeSigned(s: Signer, claims: Object)
    requires Sound(s) && Encodable(claims) && SignJWT(s, claims).Some?
    ensures var h := Header(s);
            DecodeJWT(SignJWT(s, claims).value)
            == Ok(Token(h.vals, Decoded(claims.keys, claims.vals, map[]),
                        SigningInput(s, claims), s.sign(SigningInput(s, claims)).value))
  {
    var input := SigningInput(s, claims);
    var sig := s.sign(input).value;
    Base64.RoundTrip(sig);
    SplitThree(Segment(Header(s)), Segment(claims), Base64.Encode(sig), '.');
    SegmentRead(Header(s));
    SegmentRead(claims);
    HeaderRead(s);
  }

  lemma HeaderValid(s: Signer)
    requires Utf8.Valid(s.alg) && Utf8.Valid(s.kid)
    ensures Valid(Header(s))
  {
    hide Utf8.Valid;
    Utf8.AsciiValid("alg");
    Utf8.AsciiValid("kid");
    Utf8.AsciiValid("typ");
    Utf8.AsciiValid("JWT");
    BuiltValid(HeaderEntries(s));
  }

  lemma HeaderRead(s: Signer)
    requires Utf8.Valid(s.alg) && Utf8.Valid(s.kid)
    ensures var h := Header(s); Decoded(h.keys, h.vals, map[]) == h.vals
  {
    hide Header;
    hide Valid;
    hide Encodable;
    hide Json.DecodeObject;
    HeaderValid(s);
    TextRead(Header(s));
    ValidRead(Header(s));
  }

  /** Verifying a signed token succeeds and yields the claims, cleaned. */
  lemma VerifySigned(s: Signer, claims: Object)
    requires Sound(s) && Encodable(claims) && SignJWT(s, claims).Some?
    ensures var r := VerifyJWT(s, SignJWT(s, claims).value);
            r.Ok? && r.value.claims == Decoded(claims.keys, claims.vals, map[])
  {
    hide DecodeJWT;
    hide Encodable;
    hide Decoded;
    hide SigningInput;
    DecodeSigned(s, claims);
    HeaderFields(s);
  }

  /** With valid UTF-8 throughout, the claims are those that were signed. */
  lemma VerifyReturnsClaims(s: Signer, claims: Object)
    requires Sound(s) && WellFormed(claims) && Encodable(claims) && Valid(claims) && SignJWT(s, claims).Some?
    ensures var r := VerifyJWT(s, SignJWT(s, claims).value);
            r.Ok? && r.value.claims == claims.vals
  {
    VerifySigned(s, claims);
    TextRead(claims);
    ValidRead(claims);
  }

  /** An accepted token is its signed input, a dot and an encoding of a signature that
      verifies for that input. */
  lemma AcceptedInput(s: Signer, token: string)
    requires VerifyJWT(s, token).Ok?
    ensures var t := VerifyJWT(s, token).value;
            && s.verify(t.input, t.signature)
            && exists seg :: Base64.Decode(seg) == Some(t.signature) && token == t.input + "." + seg
  {
    var parts := Split(token, '.');
    var t := VerifyJWT(s, token).value;
    JoinThree(parts, ".");
  }

  lemma JoinThree(parts: seq<string>, sep: string)
    requires |parts| == 3
    ensures Join(parts, sep) == parts[0] + sep + parts[1] + sep + parts[2]
  {
    assert parts[1..][1..] == [parts[2]];
    assert Join(parts[1..], sep) == parts[1] + sep + parts[2];
  }

  /** An integer claim comes back through its decimal text. */
  lemma IntegerRead(t: Token, name: string, n: int)
    requires name in t.claims && t.claims[name] == Json.Num(Numerals.Decimal(n))
    ensures Numerals.MIN_INT64 <= n <= Numerals.MAX_INT64 ==> IntClaim(t, name) == n
    ensures !(Numerals.MIN_INT64 <= n <= Numerals.MAX_INT64) ==> IntClaim(t, name) == 0
  {
    Numerals.ParseDecimal(n);
  }

  // ----- exactly which texts are accepted, and as what -----

  /** The entry is this string; a missing entry and one of another kind count as empty. */
  predicate Says(m: Claims, name: string, v: string) {
    if name in m && m[name].Str? then m[name].s == v else v == ""
  }

  /** The entry is this integer; a missing entry, one of another kind and a number that is no
      64-bit integer count as 0. */
  predicate SaysInt(m: Claims, name: string, n: int) {
    if name in m && m[name].Num? && Numerals.ParseInt64(m[name].lit).Some? then
      Numerals.ParseInt64(m[name].lit) == Some(n)
    else n == 0
  }

  /** The segment spells the JSON object `m`. */
  predicate Spells(seg: string, m: Claims) {
    Base64.Decode(seg).Some? && Json.DecodeObject(Base64.Decode(seg).value) == Some(m)
  }

  predicate Segments(token: string, a: string, b: string, c: string) {
    '.' !in a && '.' !in b && '.' !in c && token == a + "." + b + "." + c
  }

  /** The text is a token of three segments: its header, its claims and its signature, and what
      was signed is the text before the second dot. */
  ghost predicate IsToken(token: string, t: Token) {
    exists a, b, c :: Segments(token, a, b, c) && Spells(a, t.header) && Spells(b, t.claims)
                      && Base64.Decode(c) == Some(t.signature) && t.input == a + "." + b
  }

  /** The text is a token of the signer: its header names the signer's algorithm and key, and its
      signature verifies for what was signed. */
  ghost predicate Authentic(s: Signer, token: string, t: Token) {
    IsToken(token, t) && Says(t.header, "alg", s.alg) && Says(t.header, "kid", s.kid) && s.verify(t.input, t.signature)
  }

  lemma SegmentsSplit(token: string, a: string, b: string, c: string)
    ensures Segments(token, a, b, c) <==> Split(token, '.') == [a, b, c]
  {
    hide Split;
    if Segments(token, a, b, c) {
      SplitThree(a, b, c, '.');
    }
    if Split(token, '.') == [a, b, c] {
      JoinThree(Split(token, '.'), ".");
    }
  }

  /** Decoding accepts exactly the tokens, and yields their parts. */
  lemma DecodeExactly(token: string, t: Token)
    ensures DecodeJWT(token) == Ok(t) <==> IsToken(token, t)
  {
    hide Base64.Decode;
    hide Json.DecodeObject;
    hide Split;
    hide Segments;
    var parts := Split(token, '.');
    if |parts| == 3 {
      assert parts == [parts[0], parts[1], parts[2]];
      SegmentsSplit(token, parts[0], parts[1], parts[2]);
    }
    forall a, b, c ensures Segments(token, a, b, c) <==> parts == [a, b, c] {
      SegmentsSplit(token, a, b, c);
    }
  }

  lemma SaysString(m: Claims, name: string, v: string)
    ensures Says(m, name, v) <==> StringOf(m, name) == v
  {
  }

  /** Verification accepts exactly the signer's tokens. */
  lemma VerifyExactly(s: Signer, token: string, t: Token)
    ensures VerifyJWT(s, token) == Ok(t) <==> Authentic(s, token, t)
  {
    hide DecodeJWT;
    hide IsToken;
    DecodeExactly(token, t);
    SaysString(t.header, "alg", s.alg);
    SaysString(t.header, "kid", s.kid);
  }

  /** A text is a token of the signer in one way. */
  lemma OneToken(s: Signer, token: string, t: Token, u: Token)
    requires Authentic(s, token, t) && Authentic(s, token, u)
    ensures t == u
  {
    hide Authentic;
    VerifyExactly(s, token, t);
    VerifyExactly(s, token, u);
  }

  /** Why a text is refused: the wrong number of dots, the first segment that cannot be decoded,
      then algorithm, key and signature. */
  lemma RefusedFor(s: Signer, token: string)
    ensures var r := VerifyJWT(s, token);
            && (forall n :: r == Err(PartCount(n)) <==> n == Count(token, '.') + 1 != 3)
            && (r == Err(BadHeader) <==>
                  exists a, b, c :: Segments(token, a, b, c) && forall m :: !Spells(a, m))
            && (r == Err(BadClaims) <==>
                  exists a, b, c :: Segments(token, a, b, c) && (exists m :: Spells(a, m)) && forall m :: !Spells(b, m))
            && (r == Err(BadSignature) <==>
                  exists a, b, c :: Segments(token, a, b, c) && (exists m :: Spells(a, m)) && (exists m :: Spells(b, m))
                                    && Base64.Decode(c).None?)
            && (forall t :: IsToken(token, t) ==>
                  && (r == Err(AlgMismatch) <==> !Says(t.header, "alg", s.alg))
                  && (r == Err(KidMismatch) <==> Says(t.header, "alg", s.alg) && !Says(t.header, "kid", s.kid))
                  && (r == Err(NotVerified) <==> Says(t.header, "alg", s.alg) && Says(t.header, "kid", s.kid)
                                                 && !s.verify(t.input, t.signature)))
  {
    SplitCount(token, '.');
    hide Split;
    hide Base64.Decode;
    hide Json.DecodeObject;
    hide Segments;
    hide IsToken;
    hide Spells;
    hide Says;
    var parts := Split(token, '.');
    forall a, b, c ensures Segments(token, a, b, c) <==> parts == [a, b, c] {
      SegmentsSplit(token, a, b, c);
    }
    forall seg ensures DecodeSegment(seg).Some? <==> exists m :: Spells(seg, m) {
      SpellsDecodes(seg);
    }
    hide DecodeSegment;
    if |parts| == 3 {
      assert parts == [parts[0], parts[1], parts[2]];
    }
    forall t | IsToken(token, t)
      ensures DecodeJWT(token) == Ok(t)
      ensures Says(t.header, "alg", s.alg) <==> StringOf(t.header, "alg") == s.alg
      ensures Says(t.header, "kid", s.kid) <==> StringOf(t.header, "kid") == s.kid
    {
      DecodeExactly(token, t);
      SaysString(t.header, "alg", s.alg);
      SaysString(t.header, "kid", s.kid);
    }
  }

  lemma SpellsDecodes(seg: string)
    ensures DecodeSegment(seg).Some? <==> exists m :: Spells(seg, m)
  {
    hide Base64.Decode;
    hide Json.DecodeObject;
    if DecodeSegment(seg).Some? {
      assert Spells(seg, DecodeSegment(seg).value);
    }
  }

  lemma {:induction false} SplitCount(s: string, sep: char)
    ensures |Split(s, sep)| == Count(s, sep) + 1
  {
    if s == [] {
    } else {
      SplitCount(s[1..], sep);
    }
  }
}
