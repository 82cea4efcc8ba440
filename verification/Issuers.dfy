/** Minting tokens: which claims a persona releases under which scopes, in which order, and
    the times that go with them. */
module Issuers {
  import opened Prelude
  import opened Order
  import opened Objects
  import opened Config
  import opened TomlFinite
  import Json
  import Jwt
  import Numerals
  import Scopes
  import TomlTree
  import Utf8

  /** Library functions the issuer calls: SHA-256 and the JSON text of the float64 that a
      literal denotes. */
  datatype Platform = Platform(sha256: string -> string, floatText: string -> string)

  /** A hash has 32 bytes, and a finite float has a JSON number for a text. */
  ghost predicate ProperPlatform(p: Platform) {
    && (forall x :: |p.sha256(x)| == 32 && Bytes(p.sha256(x)))
    && (forall lit :: Numerals.IsFloat(lit) ==> Json.IsNumber(p.floatText(lit)))
  }

  datatype Issuer = Issuer(cfg: Config, signer: Jwt.Signer, platform: Platform)

  // ----- time, in nanoseconds -----

  const SECOND: int := 1_000_000_000

  /** Time.Unix. */
  function Unix(t: int): int {
    t / SECOND
  }

  /** The frozen time when the configuration has one, else the clock cut to whole seconds. */
  function IssueTime(cfg: Config, now: int): int {
    if cfg.issuedAt.Some? then cfg.issuedAt.value else now - now % SECOND
  }

  /** The expires_in of a token response. */
  function ExpiresIn(cfg: Config): int {
    cfg.ttl / SECOND
  }

  /** exp - iat is the lifetime in whole seconds, or one more; it equals expires_in exactly
      when the fractions of the issue time and the lifetime do not add up to a second. */
  lemma Lifetime(at: int, ttl: int)
    requires ttl > 0
    ensures var d := Unix(at + ttl) - Unix(at);
            && (d == ttl / SECOND || d == ttl / SECOND + 1)
            && (d == ttl / SECOND <==> at % SECOND + ttl % SECOND < SECOND)
  {
    assert at + ttl == (at / SECOND + ttl / SECOND) * SECOND + (at % SECOND + ttl % SECOND);
  }

  /** expires_in is exact for every lifetime of whole seconds, and for every lifetime when
      the clock is not frozen. */
  lemma ExpiresInExact(cfg: Config, now: int)
    requires cfg.ttl > 0 && (cfg.ttl % SECOND == 0 || cfg.issuedAt.None?)
    ensures var at := IssueTime(cfg, now); Unix(at + cfg.ttl) - Unix(at) == ExpiresIn(cfg)
  {
    var at := IssueTime(cfg, now);
    Lifetime(at, cfg.ttl);
    assert cfg.issuedAt.None? ==> at % SECOND == 0;
  }

  /** A frozen clock and a lifetime with fractions for which expires_in is one second short. */
  lemma ExpiresInOff(cfg: Config)
    requires cfg.issuedAt == Some(SECOND / 2) && cfg.ttl == 3 * SECOND / 2
    ensures var at := IssueTime(cfg, 0); Unix(at + cfg.ttl) - Unix(at) == ExpiresIn(cfg) + 1
  {
  }

  /** Under a frozen clock no minted token ever expires; under a running one a token is
      expired exactly when the clock shows a later second than its exp. */
  lemma Expiry(cfg: Config, minted: int, now: int)
    requires cfg.ttl > 0
    ensures var exp := Unix(IssueTime(cfg, minted) + cfg.ttl);
            && (cfg.issuedAt.Some? ==> exp >= Unix(IssueTime(cfg, now)))
            && (cfg.issuedAt.None? ==>
                  (exp < Unix(IssueTime(cfg, now)) <==> Unix(minted - minted % SECOND + cfg.ttl) < Unix(now)))
  {
    assert Unix(now - now % SECOND) == Unix(now);
  }

  // ----- claim values -----

  function ClaimValue(v: TomlTree.Tree, pl: Platform): Json.Value
    requires FlatClaim(v)
  {
    match v
    case Leaf(x) => ScalarValue(x, pl)
    case Arr(xs) => Json.Arr(seq(|xs|, i requires 0 <= i < |xs| => ScalarValue(xs[i].x, pl)))
  }

  function ScalarValue(x: TomlTree.Scalar, pl: Platform): Json.Value {
    match x
    case Str(s) => Json.Str(s)
    case Int(n) => Json.Num(Numerals.Decimal(n))
    case Float(lit) => Json.Num(pl.floatText(lit))
    case Bool(b) => Json.Bool(b)
  }

  function ClaimValues(p: Persona, pl: Platform): map<string, Json.Value>
    requires ValidPersona(p)
  {
    map k | k in p.claims :: ClaimEntry(p, pl, k)
  }

  function ClaimEntry(p: Persona, pl: Platform, k: string): Json.Value
    requires ValidPersona(p) && k in p.claims
  {
    assert CheckedClaim(k, p.claims[k]);
    ClaimValue(p.claims[k], pl)
  }

  function GroupsValue(p: Persona): Json.Value {
    Json.Arr(seq(|p.groups|, i requires 0 <= i < |p.groups| => Json.Str(p.groups[i])))
  }

  lemma {:induction false} DecimalNatIsNumber(n: nat)
    ensures var s := Numerals.DecimalNat(n); Json.IntLength(s) == |s| && Numerals.DigitRun(s) == |s|
  {
    AllDigitsRun(Numerals.DecimalNat(n));
  }

  lemma {:induction false} AllDigitsRun(s: string)
    requires Numerals.AllDigits(s)
    ensures Numerals.DigitRun(s) == |s|
  {
    if s == [] {
    } else {
      AllDigitsRun(s[1..]);
    }
  }

  lemma DecimalIsNumber(n: int)
    ensures Json.IsNumber(Numerals.Decimal(n))
  {
    var m := if n < 0 then -n else n;
    var digits := Numerals.DecimalNat(m);
    DecimalNatIsNumber(m);
    var s := Numerals.Decimal(n);
    if n < 0 {
      assert s[1..] == digits;
    } else {
      assert s[0..] == digits;
    }
    assert s[|s|..] == [];
  }

  /** No minted claim can fail to encode. */
  lemma ClaimEncodable(v: TomlTree.Tree, pl: Platform)
    requires FlatClaim(v) && Finite(v) && ProperPlatform(pl)
    ensures Json.Encodable(ClaimValue(v, pl))
  {
    if v.Leaf? {
      ScalarEncodable(v.x, pl);
    } else {
      forall i | 0 <= i < |v.elems| ensures Json.Encodable(ScalarValue(v.elems[i].x, pl)) {
        assert Finite(v.elems[i]);
        ScalarEncodable(v.elems[i].x, pl);
      }
    }
  }

  lemma ScalarEncodable(x: TomlTree.Scalar, pl: Platform)
    requires Finite(TomlTree.Leaf(x)) && ProperPlatform(pl)
    ensures Json.Encodable(ScalarValue(x, pl))
  {
    hide Json.IsNumber;
    hide Numerals.IsFloat;
    if x.Int? { DecimalIsNumber(x.n); }
  }

  // ----- released claims -----

  const EMAIL := "email"
  const EMAIL_VERIFIED := "email_verified"
  const GROUPS := "groups"
  const PROFILE := "profile"
  const OPENID := "openid"

  predicate ReleasesEmail(p: Persona, scopes: seq<string>) {
    EMAIL in scopes && p.email != ""
  }

  predicate ReleasesGroups(p: Persona, scopes: seq<string>) {
    GROUPS in scopes && p.groups != []
  }

  function WithEmail(o: Object, p: Persona, scopes: seq<string>): (r: Object)
    requires WellFormed(o)
    ensures WellFormed(r)
  {
    if ReleasesEmail(p, scopes) then
      With(With(o, EMAIL, Json.Str(p.email)), EMAIL_VERIFIED, Json.Bool(p.emailVerified))
    else o
  }

  function WithGroups(o: Object, p: Persona, scopes: seq<string>): (r: Object)
    requires WellFormed(o)
    ensures WellFormed(r)
  {
    if ReleasesGroups(p, scopes) then With(o, GROUPS, GroupsValue(p)) else o
  }

  /** An object after addPersonaClaims. */
  ghost function Released(o: Object, p: Persona, pl: Platform, scopes: seq<string>): (r: Object)
    requires WellFormed(o) && ValidPersona(p)
    ensures WellFormed(r)
  {
    var o2 := WithGroups(WithEmail(o, p, scopes), p, scopes);
    if PROFILE in scopes then Merged(o2, ClaimValues(p, pl)) else o2
  }

  method AddPersonaClaims(c: Builder, p: Persona, pl: Platform, scopes: seq<string>)
    requires c.Valid() && ValidPersona(p)
    modifies c
    ensures c.Valid() && c.Contents() == Released(old(c.Contents()), p, pl, scopes)
  {
    hide With;
    hide Merged;
    hide WellFormed;
    var email := Scopes.HasScope(scopes, EMAIL);
    if email && p.email != "" {
      c.Set(EMAIL, Json.Str(p.email));
      c.Set(EMAIL_VERIFIED, Json.Bool(p.emailVerified));
    }
    var groups := Scopes.HasScope(scopes, GROUPS);
    if groups && |p.groups| > 0 {
      c.Set(GROUPS, GroupsValue(p));
    }
    var profile := Scopes.HasScope(scopes, PROFILE);
    ghost var o2 := c.Contents();
    if profile && |p.claims| > 0 {
      c.SetSorted(ClaimValues(p, pl));
    } else if profile {
      assert p.claims == map[];
      MergedNothing(o2, ClaimValues(p, pl));
    }
  }

  lemma MergedNothing(o: Object, m: map<string, Json.Value>)
    requires WellFormed(o) && m == map[]
    ensures Merged(o, m) == o
  {
    NoElements(SortedKeys({}));
    assert m.Keys - o.vals.Keys == {};
    assert o.keys + [] == o.keys;
    assert o.vals + m == o.vals;
  }

  /** The value a claim ends up with, read off the persona: a custom claim of that name wins
      under the profile scope, also over email, email_verified and groups. */
  function Effective(o: Object, p: Persona, pl: Platform, scopes: seq<string>, k: string): Option<Json.Value>
    requires ValidPersona(p)
  {
    if PROFILE in scopes && k in p.claims then Some(ClaimEntry(p, pl, k))
    else if k == GROUPS && ReleasesGroups(p, scopes) then Some(GroupsValue(p))
    else if k == EMAIL_VERIFIED && ReleasesEmail(p, scopes) then Some(Json.Bool(p.emailVerified))
    else if k == EMAIL && ReleasesEmail(p, scopes) then Some(Json.Str(p.email))
    else Lookup(o, k)
  }

  lemma EmailValues(o: Object, p: Persona, scopes: seq<string>, k: string)
    requires WellFormed(o)
    ensures Lookup(WithEmail(o, p, scopes), k)
         == if k == EMAIL_VERIFIED && ReleasesEmail(p, scopes) then Some(Json.Bool(p.emailVerified))
            else if k == EMAIL && ReleasesEmail(p, scopes) then Some(Json.Str(p.email))
            else Lookup(o, k)
  {
  }

  lemma GroupsValues(o: Object, p: Persona, scopes: seq<string>, k: string)
    requires WellFormed(o)
    ensures Lookup(WithGroups(o, p, scopes), k)
         == if k == GROUPS && ReleasesGroups(p, scopes) then Some(GroupsValue(p)) else Lookup(o, k)
  {
  }

  lemma ReleasedValues(o: Object, p: Persona, pl: Platform, scopes: seq<string>, k: string)
    requires WellFormed(o) && ValidPersona(p)
    ensures Lookup(Released(o, p, pl, scopes), k) == Effective(o, p, pl, scopes, k)
  {
    hide WithEmail;
    hide WithGroups;
    hide WellFormed;
    EmailValues(o, p, scopes, k);
    GroupsValues(WithEmail(o, p, scopes), p, scopes, k);
  }

  /** The JSON value of a scalar of the file. */
  predicate SameScalar(v: Json.Value, x: TomlTree.Scalar, pl: Platform) {
    match x
    case Str(s) => v == Json.Str(s)
    case Int(n) => v == Json.Num(Numerals.Decimal(n))
    case Float(lit) => v == Json.Num(pl.floatText(lit))
    case Bool(b) => v == Json.Bool(b)
  }

  /** The JSON value of a custom claim: a scalar, or its scalars in the same places. */
  predicate SameValue(v: Json.Value, t: TomlTree.Tree, pl: Platform) {
    match t
    case Leaf(x) => SameScalar(v, x, pl)
    case Arr(xs) =>
      v.Arr? && |v.elems| == |xs| && forall i :: 0 <= i < |xs| ==> xs[i].Leaf? && SameScalar(v.elems[i], xs[i].x, pl)
    case Map(_) => false
  }

  predicate Strings(v: Json.Value, ss: seq<string>) {
    v.Arr? && |v.elems| == |ss| && forall i :: 0 <= i < |ss| ==> v.elems[i] == Json.Str(ss[i])
  }

  /** The claim `k` after the release, from the file and the scopes alone: a custom claim as it
      stands in the file under the profile scope, else groups and email under theirs, and else what
      was there before. */
  lemma ReleasedExactly(o: Object, p: Persona, pl: Platform, scopes: seq<string>, k: string)
    requires WellFormed(o) && ValidPersona(p)
    ensures var r := Lookup(Released(o, p, pl, scopes), k);
            if "profile" in scopes && k in p.claims then r.Some? && SameValue(r.value, p.claims[k], pl)
            else if k == "groups" && "groups" in scopes && p.groups != [] then r.Some? && Strings(r.value, p.groups)
            else if k == "email" && "email" in scopes && p.email != "" then r == Some(Json.Str(p.email))
            else if k == "email_verified" && "email" in scopes && p.email != "" then
              r == Some(Json.Bool(p.emailVerified))
            else r == Lookup(o, k)
  {
    ReleasedValues(o, p, pl, scopes, k);
    hide Released;
    if k in p.claims {
      assert CheckedClaim(k, p.claims[k]);
      ValueSame(p.claims[k], pl);
    }
  }

  lemma ValueSame(t: TomlTree.Tree, pl: Platform)
    requires FlatClaim(t)
    ensures SameValue(ClaimValue(t, pl), t, pl)
  {
  }

  /** The standard claims released on top of `o`, in order. */
  function StandardKeys(p: Persona, scopes: seq<string>): seq<string> {
    (if ReleasesEmail(p, scopes) then [EMAIL, EMAIL_VERIFIED] else [])
    + (if ReleasesGroups(p, scopes) then [GROUPS] else [])
  }

  predicate NoStandardKeys(o: Object) {
    EMAIL !in o.vals && EMAIL_VERIFIED !in o.vals && GROUPS !in o.vals
  }

  lemma StandardKeysAdded(o: Object, p: Persona, scopes: seq<string>)
    requires WellFormed(o) && NoStandardKeys(o)
    ensures WithGroups(WithEmail(o, p, scopes), p, scopes).keys == o.keys + StandardKeys(p, scopes)
  {
  }

  /** The order of a token's claims: what was there, then email and groups, then the other
      custom claims in ascending order, from whatever order the claims map is walked. */
  lemma ReleasedOrder(o: Object, p: Persona, pl: Platform, scopes: seq<string>)
    requires WellFormed(o) && ValidPersona(p) && NoStandardKeys(o)
    ensures var r := Released(o, p, pl, scopes);
            var known := o.vals.Keys + Elements(StandardKeys(p, scopes));
            r.keys == o.keys + StandardKeys(p, scopes)
                      + (if PROFILE in scopes then SortedKeys(p.claims.Keys - known) else [])
  {
    hide With;
    hide SortedKeys;
    StandardKeysAdded(o, p, scopes);
    var o2 := WithGroups(WithEmail(o, p, scopes), p, scopes);
    assert o2.vals.Keys == Elements(o2.keys) == o.vals.Keys + Elements(StandardKeys(p, scopes));
    assert ClaimValues(p, pl).Keys == p.claims.Keys;
    if PROFILE !in scopes {
      assert o2.keys + [] == o2.keys;
    }
  }

  /** Personas cannot make tokens lie: releasing claims changes no reserved claim. */
  lemma RegisteredKept(o: Object, p: Persona, pl: Platform, scopes: seq<string>)
    requires WellFormed(o) && ValidPersona(p)
    ensures var r := Released(o, p, pl, scopes);
            forall k :: k in RESERVED_CLAIMS ==> Lookup(r, k) == Lookup(o, k)
  {
    var r := Released(o, p, pl, scopes);
    forall k | k in RESERVED_CLAIMS ensures Lookup(r, k) == Lookup(o, k) {
      ReleasedValues(o, p, pl, scopes, k);
      StandardNotReserved();
      assert k in p.claims ==> CheckedClaim(k, p.claims[k]);
    }
  }

  lemma StandardNotReserved()
    ensures EMAIL !in RESERVED_CLAIMS && EMAIL_VERIFIED !in RESERVED_CLAIMS && GROUPS !in RESERVED_CLAIMS
  {
  }

  /** The scope that is meant to release a standard claim. */
  function Gate(k: string): string {
    if k == GROUPS then GROUPS else EMAIL
  }

  /** A standard claim stays behind its scope, whatever else is requested, exactly when the
      persona has no custom claim of that name: these names are not reserved, and the
      profile scope releases every custom claim. */
  lemma GatedExactly(o: Object, p: Persona, pl: Platform, k: string)
    requires WellFormed(o) && ValidPersona(p) && NoStandardKeys(o)
    requires k == EMAIL || k == EMAIL_VERIFIED || k == GROUPS
    ensures (forall scopes :: Gate(k) !in scopes ==> k !in Released(o, p, pl, scopes).vals) <==> k !in p.claims
  {
    hide Released;
    if k in p.claims {
      ReleasedValues(o, p, pl, [PROFILE], k);
      assert Gate(k) !in [PROFILE];
    }
    forall scopes | Gate(k) !in scopes && k !in p.claims ensures k !in Released(o, p, pl, scopes).vals {
      ReleasedValues(o, p, pl, scopes, k);
    }
  }

  /** The scope list matters only through the three scopes that release claims. */
  lemma SameRelease(o: Object, p: Persona, pl: Platform, a: seq<string>, b: seq<string>)
    requires WellFormed(o) && ValidPersona(p)
    requires (EMAIL in a <==> EMAIL in b) && (GROUPS in a <==> GROUPS in b) && (PROFILE in a <==> PROFILE in b)
    ensures Released(o, p, pl, a) == Released(o, p, pl, b)
  {
  }

  /** More scopes release no fewer claims. */
  lemma Monotone(o: Object, p: Persona, pl: Platform, a: seq<string>, b: seq<string>)
    requires WellFormed(o) && ValidPersona(p) && forall s :: s in a ==> s in b
    ensures Released(o, p, pl, a).vals.Keys <= Released(o, p, pl, b).vals.Keys
  {
    hide Released;
    forall k | k in Released(o, p, pl, a).vals ensures k in Released(o, p, pl, b).vals {
      ReleasedValues(o, p, pl, a, k);
      ReleasedValues(o, p, pl, b, k);
    }
  }

  lemma ReleasedEncodable(o: Object, p: Persona, pl: Platform, scopes: seq<string>)
    requires WellFormed(o) && AllEncodable(o) && ValidPersona(p) && ProperPlatform(pl)
    ensures Encodable(Released(o, p, pl, scopes))
  {
    var r := Released(o, p, pl, scopes);
    forall k | k in r.keys ensures k in r.vals && Json.Encodable(r.vals[k]) {
      assert k in Elements(r.keys);
      ReleasedValues(o, p, pl, scopes, k);
      if k in p.claims {
        assert CheckedClaim(k, p.claims[k]);
        ClaimEncodable(p.claims[k], pl);
      }
    }
  }

  // ----- the tokens -----

  /** hex.EncodeToString. */
  function HexText(b: string): (s: string)
    requires Bytes(b)
    ensures |s| == 2 * |b|
  {
    if b == [] then []
    else [Json.HexDigit(b[0] as int / 16), Json.HexDigit(b[0] as int % 16)] + HexText(b[1..])
  }

  function Separated(parts: seq<string>): string {
    if parts == [] then [] else "\0" + parts[0] + Separated(parts[1..])
  }

  function DeriveID(iss: Issuer, parts: seq<string>): string
    requires ProperPlatform(iss.platform)
  {
    HexText(iss.platform.sha256("personad-id-v1" + iss.cfg.seed + Separated(parts)))[..24]
  }

  function Number(n: int): Json.Value {
    Json.Num(Numerals.Decimal(n))
  }

  /** The registered claims of an ID token, in order. */
  function IDEntries(iss: Issuer, p: Persona, clientID: string, nonce: string, at: int): seq<Entry> {
    [("iss", Json.Str(iss.cfg.issuer)), ("sub", Json.Str(p.subject)), ("aud", Json.Str(clientID)),
     ("exp", Number(Unix(at + iss.cfg.ttl))), ("iat", Number(Unix(at))), ("auth_time", Number(Unix(at)))]
    + if nonce == "" then [] else [("nonce", Json.Str(nonce))]
  }

  /** The registered claims of an access token for the subject `sub`, in order. */
  function AccessEntries(iss: Issuer, sub: string, clientID: string, scopes: seq<string>, at: int): seq<Entry>
    requires ProperPlatform(iss.platform)
  {
    var jti := DeriveID(iss, ["jti", sub, clientID, Numerals.Decimal(Unix(at)), Join(scopes, " ")]);
    [("iss", Json.Str(iss.cfg.issuer)), ("sub", Json.Str(sub)), ("aud", Json.Str(clientID)),
     ("client_id", Json.Str(clientID)), ("exp", Number(Unix(at + iss.cfg.ttl))), ("iat", Number(Unix(at))),
     ("jti", Json.Str(jti)), ("scope", Json.Str(Join(scopes, " "))), ("token_use", Json.Str("access"))]
  }

  lemma IDKeys(iss: Issuer, p: Persona, clientID: string, nonce: string, at: int)
    ensures var ks := KeysIn(IDEntries(iss, p, clientID, nonce, at));
            && Distinct(ks) && Elements(ks) <= RESERVED_CLAIMS && "token_use" !in ks
            && (forall k :: k in ks ==> Utf8.Ascii(k))
            && Elements(ks) <= SUPPORTED_CLAIMS
  {
    hide Numerals.Decimal;
  }

  lemma AccessKeys(iss: Issuer, sub: string, clientID: string, scopes: seq<string>, at: int)
    requires ProperPlatform(iss.platform)
    ensures var ks := KeysIn(AccessEntries(iss, sub, clientID, scopes, at));
            Distinct(ks) && Elements(ks) <= RESERVED_CLAIMS && (forall k :: k in ks ==> Utf8.Ascii(k))
  {
    hide Numerals.Decimal;
    hide DeriveID;
    hide Join;
  }

  /** The state of a server: a valid configuration, a sound signer, proper library calls. */
  ghost predicate Serving(iss: Issuer, lib: Library) {
    ValidConfig(iss.cfg, lib) && iss.cfg.ttl > 0 && Jwt.Sound(iss.signer) && ProperPlatform(iss.platform)
  }

  ghost function IDClaims(iss: Issuer, p: Persona, clientID: string, nonce: string, scopes: seq<string>, at: int):
    (o: Object)
    requires ValidPersona(p) && ProperPlatform(iss.platform)
    ensures WellFormed(o) && Encodable(o)
  {
    var base := Built(IDEntries(iss, p, clientID, nonce, at));
    IDEncodable(iss, p, clientID, nonce, at);
    ReleasedEncodable(base, p, iss.platform, scopes);
    Released(base, p, iss.platform, scopes)
  }

  ghost function AccessClaims(iss: Issuer, p: Persona, clientID: string, scopes: seq<string>, at: int): (o: Object)
    requires ValidPersona(p) && ProperPlatform(iss.platform)
    ensures WellFormed(o) && Encodable(o)
  {
    var base := Built(AccessEntries(iss, p.subject, clientID, scopes, at));
    AccessEncodable(iss, p.subject, clientID, scopes, at);
    ReleasedEncodable(base, p, iss.platform, scopes);
    Released(base, p, iss.platform, scopes)
  }

  /** A machine client's token: the client is the subject and no persona claims. */
  function ClientClaims(iss: Issuer, clientID: string, scopes: seq<string>, at: int): (o: Object)
    requires ProperPlatform(iss.platform)
    ensures WellFormed(o) && Encodable(o)
  {
    AccessEncodable(iss, clientID, clientID, scopes, at);
    Built(AccessEntries(iss, clientID, clientID, scopes, at))
  }

  ghost function UserinfoClaims(iss: Issuer, p: Persona, scopes: seq<string>): (o: Object)
    requires ValidPersona(p)
    ensures WellFormed(o)
  {
    Released(With(NOTHING, "sub", Json.Str(p.subject)), p, iss.platform, scopes)
  }

  /** A userinfo response: the subject, and nothing that is not released. */
  lemma UserinfoSays(iss: Issuer, p: Persona, scopes: seq<string>, k: string)
    requires ValidPersona(p)
    ensures var o := UserinfoClaims(iss, p, scopes);
            && Lookup(o, "sub") == Some(Json.Str(p.subject))
            && (k in o.vals && k != "sub" ==>
                  || ("profile" in scopes && k in p.claims)
                  || ("groups" in scopes && p.groups != [] && k == "groups")
                  || ("email" in scopes && p.email != "" && k in {"email", "email_verified"}))
  {
    hide Released;
    var base := With(NOTHING, "sub", Json.Str(p.subject));
    ReleasedExactly(base, p, iss.platform, scopes, "sub");
    ReleasedExactly(base, p, iss.platform, scopes, k);
    assert "sub" in RESERVED_CLAIMS;
    assert "sub" in p.claims ==> CheckedClaim("sub", p.claims["sub"]);
  }

  lemma IDEncodable(iss: Issuer, p: Persona, clientID: string, nonce: string, at: int)
    ensures AllEncodable(Built(IDEntries(iss, p, clientID, nonce, at)))
  {
    DecimalIsNumber(Unix(at + iss.cfg.ttl));
    DecimalIsNumber(Unix(at));
    BuiltEncodable(IDEntries(iss, p, clientID, nonce, at));
  }

  lemma AccessEncodable(iss: Issuer, sub: string, clientID: string, scopes: seq<string>, at: int)
    requires ProperPlatform(iss.platform)
    ensures AllEncodable(Built(AccessEntries(iss, sub, clientID, scopes, at)))
    ensures Encodable(Built(AccessEntries(iss, sub, clientID, scopes, at)))
  {
    DecimalIsNumber(Unix(at + iss.cfg.ttl));
    DecimalIsNumber(Unix(at));
    BuiltEncodable(AccessEntries(iss, sub, clientID, scopes, at));
  }

  // ----- token identifiers -----

  /** Two texts whose hashes agree on the first `n` bytes. */
  predicate Collide(pl: Platform, n: nat, x: string, y: string)
    requires ProperPlatform(pl) && n <= 32
  {
    x != y && pl.sha256(x)[..n] == pl.sha256(y)[..n]
  }

  lemma HexDigitInjective(i: nat, j: nat)
    requires i < 16 && j < 16 && Json.HexDigit(i) == Json.HexDigit(j)
    ensures i == j
  {
  }

  lemma {:induction false} HexInjective(a: string, b: string)
    requires Bytes(a) && Bytes(b) && |a| == |b| && HexText(a) == HexText(b)
    ensures a == b
  {
    if a == [] {
    } else {
      assert HexText(a)[0] == HexText(b)[0] && HexText(a)[1] == HexText(b)[1];
      HexDigitInjective(a[0] as int / 16, b[0] as int / 16);
      HexDigitInjective(a[0] as int % 16, b[0] as int % 16);
      assert HexText(a)[2..] == HexText(a[1..]) && HexText(b)[2..] == HexText(b[1..]);
      HexInjective(a[1..], b[1..]);
      assert a == [a[0]] + a[1..] && b == [b[0]] + b[1..];
    }
  }

  lemma {:induction false} HexPrefix(b: string, n: nat)
    requires Bytes(b) && n <= |b|
    ensures HexText(b)[..2 * n] == HexText(b[..n])
  {
    if n == 0 {
      assert b[..0] == [];
    } else {
      HexPrefix(b[1..], n - 1);
      assert b[..n][1..] == b[1..][..n - 1];
      var h := [Json.HexDigit(b[0] as int / 16), Json.HexDigit(b[0] as int % 16)];
      assert HexText(b) == h + HexText(b[1..]);
      assert HexText(b)[..2 * n] == h + HexText(b[1..])[..2 * (n - 1)];
    }
  }

  /** Truncated hexadecimal hashes are equal exactly for equal texts and collisions. */
  lemma HashesDiffer(pl: Platform, n: nat, x: string, y: string)
    requires ProperPlatform(pl) && n <= 32
    ensures HexText(pl.sha256(x))[..2 * n] == HexText(pl.sha256(y))[..2 * n] <==> x == y || Collide(pl, n, x, y)
  {
    var a, b := pl.sha256(x), pl.sha256(y);
    HexPrefix(a, n);
    HexPrefix(b, n);
    if HexText(a[..n]) == HexText(b[..n]) {
      HexInjective(a[..n], b[..n]);
    }
  }

  /** What the jti of an access token is the hash of. */
  function JtiText(seed: string, sub: string, clientID: string, second: int, scope: string): string {
    "personad-id-v1" + seed + "\0jti\0" + sub + "\0" + clientID + "\0" + Numerals.Decimal(second) + "\0" + scope
  }

  lemma JtiOf(iss: Issuer, sub: string, clientID: string, scopes: seq<string>, at: int)
    requires ProperPlatform(iss.platform)
    ensures var text := JtiText(iss.cfg.seed, sub, clientID, Unix(at), Join(scopes, " "));
            Lookup(Built(AccessEntries(iss, sub, clientID, scopes, at)), "jti")
            == Some(Json.Str(HexText(iss.platform.sha256(text))[..24]))
  {
    var es := AccessEntries(iss, sub, clientID, scopes, at);
    AccessKeys(iss, sub, clientID, scopes, at);
    JtiDerived(iss, sub, clientID, Unix(at), Join(scopes, " "));
    hide Built;
    hide Lookup;
    hide DeriveID;
    hide HexText;
    hide JtiText;
    BuiltLookup(es, 6);
  }

  lemma JtiDerived(iss: Issuer, sub: string, clientID: string, second: int, scope: string)
    requires ProperPlatform(iss.platform)
    ensures DeriveID(iss, ["jti", sub, clientID, Numerals.Decimal(second), scope])
         == HexText(iss.platform.sha256(JtiText(iss.cfg.seed, sub, clientID, second, scope)))[..24]
  {
    hide HexText;
    hide Numerals.Decimal;
    var d := Numerals.Decimal(second);
    var parts := ["jti", sub, clientID, d, scope];
    assert parts[1..] == [sub, clientID, d, scope] && [sub, clientID, d, scope][1..] == [clientID, d, scope];
    assert [clientID, d, scope][1..] == [d, scope] && [d, scope][1..] == [scope] && [scope][1..] == [];
    assert Separated([scope]) == "\0" + scope;
    assert Separated([d, scope]) == "\0" + d + ("\0" + scope);
    assert Separated([clientID, d, scope]) == "\0" + clientID + ("\0" + d + ("\0" + scope));
    assert Separated(parts) == "\0" + "jti" + ("\0" + sub + ("\0" + clientID + ("\0" + d + ("\0" + scope))));
    hide Separated;
    assert "personad-id-v1" + iss.cfg.seed + Separated(parts) == JtiText(iss.cfg.seed, sub, clientID, second, scope);
  }

  /** The text separates its parts as long as the subject and the client id hold no zero byte. */
  lemma JtiTextExactly(seed: string, sub: string, clientID: string, second: int, scope: string,
                       sub': string, clientID': string, second': int, scope': string)
    requires '\0' !in sub && '\0' !in clientID && '\0' !in sub' && '\0' !in clientID'
    ensures JtiText(seed, sub, clientID, second, scope) == JtiText(seed, sub', clientID', second', scope') <==>
            sub == sub' && clientID == clientID' && second == second' && scope == scope'
  {
    hide Numerals.Decimal;
    var d, d' := Numerals.Decimal(second), Numerals.Decimal(second');
    var head := "personad-id-v1" + seed + "\0jti\0";
    var x, x' := clientID + ("\0" + (d + ("\0" + scope))), clientID' + ("\0" + (d' + ("\0" + scope')));
    var t, t' := JtiText(seed, sub, clientID, second, scope), JtiText(seed, sub', clientID', second', scope');
    assert t == head + (sub + ("\0" + x)) && t' == head + (sub' + ("\0" + x'));
    if t == t' {
      assert t[|head|..] == sub + ("\0" + x) && t'[|head|..] == sub' + ("\0" + x');
      CutFirst(sub, x, sub', x', '\0');
      CutFirst(clientID, d + ("\0" + scope), clientID', d' + ("\0" + scope'), '\0');
      Numerals.DecimalChars(second);
      Numerals.DecimalChars(second');
      CutFirst(d, scope, d', scope', '\0');
      Numerals.DecimalInjective(second, second');
    }
  }

  /** Two access tokens have the same jti exactly if they agree on subject, client, second and
      scope, unless the truncated hash collides; for subjects and client ids without a zero byte. */
  lemma JtiExactly(iss: Issuer, sub: string, clientID: string, scopes: seq<string>, at: int,
                   sub': string, clientID': string, scopes': seq<string>, at': int)
    requires ProperPlatform(iss.platform)
    requires '\0' !in sub && '\0' !in clientID && '\0' !in sub' && '\0' !in clientID'
    ensures Lookup(Built(AccessEntries(iss, sub, clientID, scopes, at)), "jti")
            == Lookup(Built(AccessEntries(iss, sub', clientID', scopes', at')), "jti") <==>
            || (sub == sub' && clientID == clientID' && Unix(at) == Unix(at') && Join(scopes, " ") == Join(scopes', " "))
            || Collide(iss.platform, 12, JtiText(iss.cfg.seed, sub, clientID, Unix(at), Join(scopes, " ")),
                       JtiText(iss.cfg.seed, sub', clientID', Unix(at'), Join(scopes', " ")))
  {
    JtiOf(iss, sub, clientID, scopes, at);
    JtiOf(iss, sub', clientID', scopes', at');
    hide Built;
    hide Lookup;
    hide AccessEntries;
    hide JtiText;
    hide HexText;
    hide Join;
    hide Unix;
    var s, s' := Join(scopes, " "), Join(scopes', " ");
    JtiTextExactly(iss.cfg.seed, sub, clientID, Unix(at), s, sub', clientID', Unix(at'), s');
    HashesDiffer(iss.platform, 12, JtiText(iss.cfg.seed, sub, clientID, Unix(at), s),
                 JtiText(iss.cfg.seed, sub', clientID', Unix(at'), s'));
  }

  /** With a zero byte in a subject the parts can be cut in two ways: another subject and client get
      the same jti at the same second and scope. */
  lemma JtiMeets(iss: Issuer, u: string, v: string, clientID: string, scopes: seq<string>, at: int)
    requires ProperPlatform(iss.platform)
    ensures u + "\0" + v != u
    ensures Lookup(Built(AccessEntries(iss, u + "\0" + v, clientID, scopes, at)), "jti")
         == Lookup(Built(AccessEntries(iss, u, v + "\0" + clientID, scopes, at)), "jti")
  {
    JtiOf(iss, u + "\0" + v, clientID, scopes, at);
    JtiOf(iss, u, v + "\0" + clientID, scopes, at);
    hide Built;
    hide Lookup;
    hide AccessEntries;
    hide HexText;
    hide Join;
    hide JtiText;
    JtiTextMeets(iss.cfg.seed, u, v, clientID, Unix(at), Join(scopes, " "));
  }

  lemma JtiTextMeets(seed: string, u: string, v: string, clientID: string, second: int, scope: string)
    ensures JtiText(seed, u + "\0" + v, clientID, second, scope) == JtiText(seed, u, v + "\0" + clientID, second, scope)
  {
    hide Numerals.Decimal;
  }

  // ----- the order of a token's claims -----

  /** The custom claims that follow the registered and standard ones. */
  ghost function CustomKeys(p: Persona, scopes: seq<string>): seq<string> {
    if PROFILE in scopes then SortedKeys(p.claims.Keys - Elements(StandardKeys(p, scopes))) else []
  }

  /** Registered claims, then the released standard ones, then the other custom claims in
      ascending order. */
  lemma OrderOnReserved(o: Object, p: Persona, pl: Platform, scopes: seq<string>)
    requires WellFormed(o) && ValidPersona(p) && o.vals.Keys <= RESERVED_CLAIMS
    ensures Released(o, p, pl, scopes).keys == o.keys + StandardKeys(p, scopes) + CustomKeys(p, scopes)
  {
    hide SortedKeys;
    hide Released;
    StandardNotReserved();
    assert EMAIL !in o.vals.Keys && EMAIL_VERIFIED !in o.vals.Keys && GROUPS !in o.vals.Keys;
    ReleasedOrder(o, p, pl, scopes);
    var std := Elements(StandardKeys(p, scopes));
    forall k | k in p.claims.Keys ensures k !in o.vals.Keys {
      assert CheckedClaim(k, p.claims[k]);
    }
    assert p.claims.Keys - (o.vals.Keys + std) == p.claims.Keys - std;
  }

  /** An object built from reserved keys. */
  lemma BuiltOnReserved(es: seq<Entry>)
    requires Distinct(KeysIn(es)) && Elements(KeysIn(es)) <= RESERVED_CLAIMS
    ensures Built(es).keys == KeysIn(es) && Built(es).vals.Keys <= RESERVED_CLAIMS
  {
    BuiltKeys(es);
    assert Built(es).vals.Keys == Elements(Built(es).keys);
  }

  lemma IDNames(iss: Issuer, p: Persona, clientID: string, nonce: string, at: int)
    ensures KeysIn(IDEntries(iss, p, clientID, nonce, at))
         == ["iss", "sub", "aud", "exp", "iat", "auth_time"] + if nonce == "" then [] else ["nonce"]
  {
    hide Numerals.Decimal;
  }

  lemma AccessNames(iss: Issuer, sub: string, clientID: string, scopes: seq<string>, at: int)
    requires ProperPlatform(iss.platform)
    ensures KeysIn(AccessEntries(iss, sub, clientID, scopes, at))
         == ["iss", "sub", "aud", "client_id", "exp", "iat", "jti", "scope", "token_use"]
  {
    hide Numerals.Decimal;
    hide DeriveID;
    hide Join;
  }

  /** The claims of an ID token, in order. */
  lemma IDOrder(iss: Issuer, p: Persona, clientID: string, nonce: string, scopes: seq<string>, at: int)
    requires ValidPersona(p) && ProperPlatform(iss.platform)
    ensures IDClaims(iss, p, clientID, nonce, scopes, at).keys
         == ["iss", "sub", "aud", "exp", "iat", "auth_time"] + (if nonce == "" then [] else ["nonce"])
            + StandardKeys(p, scopes) + CustomKeys(p, scopes)
  {
    hide IDEntries;
    hide Built;
    hide Released;
    hide StandardKeys;
    hide CustomKeys;
    var es := IDEntries(iss, p, clientID, nonce, at);
    IDKeys(iss, p, clientID, nonce, at);
    BuiltOnReserved(es);
    OrderOnReserved(Built(es), p, iss.platform, scopes);
    IDNames(iss, p, clientID, nonce, at);
  }

  /** The claims of an access token, in order. */
  lemma AccessOrder(iss: Issuer, p: Persona, clientID: string, scopes: seq<string>, at: int)
    requires ValidPersona(p) && ProperPlatform(iss.platform)
    ensures AccessClaims(iss, p, clientID, scopes, at).keys
         == ["iss", "sub", "aud", "client_id", "exp", "iat", "jti", "scope", "token_use"]
            + StandardKeys(p, scopes) + CustomKeys(p, scopes)
  {
    hide AccessEntries;
    hide Built;
    hide Released;
    hide StandardKeys;
    hide CustomKeys;
    var es := AccessEntries(iss, p.subject, clientID, scopes, at);
    AccessKeys(iss, p.subject, clientID, scopes, at);
    BuiltOnReserved(es);
    OrderOnReserved(Built(es), p, iss.platform, scopes);
    AccessNames(iss, p.subject, clientID, scopes, at);
  }

  lemma SubjectOnly(sub: string)
    ensures var o := With(NOTHING, "sub", Json.Str(sub)); o.keys == ["sub"] && o.vals.Keys <= RESERVED_CLAIMS
  {
  }

  /** The members of a userinfo response, in order. */
  lemma UserinfoOrder(iss: Issuer, p: Persona, scopes: seq<string>)
    requires ValidPersona(p)
    ensures UserinfoClaims(iss, p, scopes).keys == ["sub"] + StandardKeys(p, scopes) + CustomKeys(p, scopes)
  {
    hide With;
    hide Released;
    hide StandardKeys;
    hide CustomKeys;
    SubjectOnly(p.subject);
    OrderOnReserved(With(NOTHING, "sub", Json.Str(p.subject)), p, iss.platform, scopes);
  }

  // ----- minting -----

  /** None when the signer fails; encoding cannot. */
  method IDToken(iss: Issuer, p: Persona, clientID: string, nonce: string, scopes: seq<string>, at: int)
    returns (r: Option<string>)
    requires ValidPersona(p) && Jwt.Sound(iss.signer) && ProperPlatform(iss.platform)
    ensures r == Jwt.SignJWT(iss.signer, IDClaims(iss, p, clientID, nonce, scopes, at))
  {
    hide Released;
    var c := NewObject(IDEntries(iss, p, clientID, nonce, at));
    AddPersonaClaims(c, p, iss.platform, scopes);
    assert c.Contents() == IDClaims(iss, p, clientID, nonce, scopes, at);
    r := Jwt.SignJWT(iss.signer, c.Contents());
  }

  method AccessToken(iss: Issuer, p: Persona, clientID: string, scopes: seq<string>, at: int) returns (r: Option<string>)
    requires ValidPersona(p) && Jwt.Sound(iss.signer) && ProperPlatform(iss.platform)
    ensures r == Jwt.SignJWT(iss.signer, AccessClaims(iss, p, clientID, scopes, at))
  {
    hide Released;
    var c := NewObject(AccessEntries(iss, p.subject, clientID, scopes, at));
    AddPersonaClaims(c, p, iss.platform, scopes);
    assert c.Contents() == AccessClaims(iss, p, clientID, scopes, at);
    r := Jwt.SignJWT(iss.signer, c.Contents());
  }

  method ClientCredentialsToken(iss: Issuer, clientID: string, scopes: seq<string>, at: int) returns (r: Option<string>)
    requires Jwt.Sound(iss.signer) && ProperPlatform(iss.platform)
    ensures r == Jwt.SignJWT(iss.signer, ClientClaims(iss, clientID, scopes, at))
  {
    var c := NewObject(AccessEntries(iss, clientID, clientID, scopes, at));
    assert c.Contents() == ClientClaims(iss, clientID, scopes, at);
    r := Jwt.SignJWT(iss.signer, c.Contents());
  }

  method Userinfo(iss: Issuer, p: Persona, scopes: seq<string>) returns (o: Object)
    requires ValidPersona(p)
    ensures o == UserinfoClaims(iss, p, scopes)
  {
    var c := new Builder();
    c.Set("sub", Json.Str(p.subject));
    AddPersonaClaims(c, p, iss.platform, scopes);
    o := c.Contents();
  }

  // ----- claims_supported -----

  const SUPPORTED_CLAIMS: set<string> := {"iss", "sub", "aud", "exp", "iat", "auth_time", "nonce"}

  /** Everything a persona can release under some scopes. */
  function Releasable(p: Persona): set<string> {
    (if p.email != "" then {EMAIL, EMAIL_VERIFIED} else {})
    + (if p.groups != [] then {GROUPS} else {})
    + p.claims.Keys
  }

  function SupportedBy(ps: seq<Persona>): set<string> {
    if ps == [] then SUPPORTED_CLAIMS else SupportedBy(ps[..|ps| - 1]) + Releasable(ps[|ps| - 1])
  }

  /** claims_supported is the strictly ascending list of the registered claims of ID tokens
      and of everything a persona can release. */
  method ClaimsSupported(cfg: Config) returns (out: seq<string>)
    ensures Ascending(out) && Elements(out) == SupportedBy(cfg.personas)
  {
    var supported := SUPPORTED_CLAIMS;
    for i := 0 to |cfg.personas|
      invariant supported == SupportedBy(cfg.personas[..i])
    {
      var p := cfg.personas[i];
      assert cfg.personas[..i + 1][..i] == cfg.personas[..i];
      if p.email != "" {
        supported := supported + {EMAIL, EMAIL_VERIFIED};
      }
      if |p.groups| > 0 {
        supported := supported + {GROUPS};
      }
      supported := AddKeys(supported, p.claims);
    }
    assert cfg.personas[..|cfg.personas|] == cfg.personas;
    out := Listed(supported);
    SortSorts(out);
    out := Sort(out);
  }

  /** The loop that lists a set of names, in any order. */
  method Listed(names: set<string>) returns (out: seq<string>)
    ensures Distinct(out) && Elements(out) == names
  {
    out := [];
    var rest := names;
    while rest != {}
      invariant Distinct(out) && rest <= names && Elements(out) == names - rest
      decreases |rest|
    {
      var k :| k in rest;
      assert k !in out by { assert k !in Elements(out); }
      assert Elements(out + [k]) == Elements(out) + {k};
      out := out + [k];
      rest := rest - {k};
    }
  }

  /** The loop over one persona's claims, in any order. */
  method AddKeys(into: set<string>, m: Table) returns (r: set<string>)
    ensures r == into + m.Keys
  {
    r := into;
    var rest := m.Keys;
    while rest != {}
      invariant rest <= m.Keys && r == into + (m.Keys - rest)
      decreases |rest|
    {
      var k :| k in rest;
      r := r + {k};
      rest := rest - {k};
    }
  }

  lemma {:induction false} SupportedHas(ps: seq<Persona>, p: Persona)
    ensures SUPPORTED_CLAIMS <= SupportedBy(ps)
    ensures p in ps ==> Releasable(p) <= SupportedBy(ps)
  {
    if ps == [] {
    } else {
      SupportedHas(ps[..|ps| - 1], p);
      assert ps == ps[..|ps| - 1] + [ps[|ps| - 1]];
    }
  }

  lemma ReleasedKeys(o: Object, p: Persona, pl: Platform, scopes: seq<string>)
    requires WellFormed(o) && ValidPersona(p)
    ensures Released(o, p, pl, scopes).vals.Keys <= o.vals.Keys + Releasable(p)
  {
    hide Released;
    forall k | k in Released(o, p, pl, scopes).vals ensures k in o.vals.Keys + Releasable(p) {
      ReleasedValues(o, p, pl, scopes, k);
    }
  }

  /** claims_supported lists every key of every ID token and userinfo response any persona
      can produce under any scopes. */
  lemma SupportedIsComplete(iss: Issuer, p: Persona, clientID: string, nonce: string, scopes: seq<string>, at: int)
    requires p in iss.cfg.personas && ValidPersona(p) && ProperPlatform(iss.platform)
    ensures IDClaims(iss, p, clientID, nonce, scopes, at).vals.Keys <= SupportedBy(iss.cfg.personas)
    ensures UserinfoClaims(iss, p, scopes).vals.Keys <= SupportedBy(iss.cfg.personas)
  {
    hide Released;
    SupportedHas(iss.cfg.personas, p);
    var base := Built(IDEntries(iss, p, clientID, nonce, at));
    IDKeys(iss, p, clientID, nonce, at);
    BuiltKeys(IDEntries(iss, p, clientID, nonce, at));
    assert base.vals.Keys == Elements(base.keys);
    ReleasedKeys(base, p, iss.platform, scopes);
    ReleasedKeys(With(NOTHING, "sub", Json.Str(p.subject)), p, iss.platform, scopes);
  }

  /** ... and lists nothing else: every name is a registered claim of ID tokens or is released by
      some persona under some scopes. */
  lemma SupportedExactly(iss: Issuer, k: string)
    requires forall p :: p in iss.cfg.personas ==> ValidPersona(p)
    ensures k in SupportedBy(iss.cfg.personas) <==>
            || k in {"iss", "sub", "aud", "exp", "iat", "auth_time", "nonce"}
            || exists p, scopes :: p in iss.cfg.personas && k in UserinfoClaims(iss, p, scopes).vals
  {
    hide UserinfoClaims;
    hide Releasable;
    SupportedFrom(iss.cfg.personas, k);
    var all := [EMAIL, GROUPS, PROFILE];
    forall p | p in iss.cfg.personas && k in Releasable(p) ensures k in UserinfoClaims(iss, p, all).vals {
      AllReleased(iss, p, k);
    }
    forall p, scopes | p in iss.cfg.personas && k in UserinfoClaims(iss, p, scopes).vals
      ensures k == "sub" || k in Releasable(p)
    {
      OnlyReleasable(iss, p, scopes, k);
    }
  }

  lemma {:induction false} SupportedFrom(ps: seq<Persona>, k: string)
    ensures k in SupportedBy(ps) <==> k in SUPPORTED_CLAIMS || exists p :: p in ps && k in Releasable(p)
  {
    hide Releasable;
    if ps == [] {
    } else {
      SupportedFrom(ps[..|ps| - 1], k);
      assert ps == ps[..|ps| - 1] + [ps[|ps| - 1]];
    }
  }

  lemma AllReleased(iss: Issuer, p: Persona, k: string)
    requires ValidPersona(p) && k in Releasable(p)
    ensures k in UserinfoClaims(iss, p, [EMAIL, GROUPS, PROFILE]).vals
  {
    hide Released;
    ReleasedValues(With(NOTHING, "sub", Json.Str(p.subject)), p, iss.platform, [EMAIL, GROUPS, PROFILE], k);
  }

  lemma OnlyReleasable(iss: Issuer, p: Persona, scopes: seq<string>, k: string)
    requires ValidPersona(p) && k in UserinfoClaims(iss, p, scopes).vals
    ensures k == "sub" || k in Releasable(p)
  {
    hide Released;
    ReleasedKeys(With(NOTHING, "sub", Json.Str(p.subject)), p, iss.platform, scopes);
    assert k in UserinfoClaims(iss, p, scopes).vals.Keys;
  }

  /** Two lower-case hexadecimal digits for each byte. */
  lemma {:induction false} HexDigitsOf(b: string, i: nat)
    requires Bytes(b) && i < |b|
    ensures HexText(b)[2 * i] == "0123456789abcdef"[b[i] as int / 16]
    ensures HexText(b)[2 * i + 1] == "0123456789abcdef"[b[i] as int % 16]
  {
    if i == 0 {
      Json.HexDigitsOrder(b[0] as int / 16);
      Json.HexDigitsOrder(b[0] as int % 16);
    } else {
      HexDigitsOf(b[1..], i - 1);
      assert HexText(b)[2 * i] == HexText(b[1..])[2 * (i - 1)];
      assert HexText(b)[2 * i + 1] == HexText(b[1..])[2 * (i - 1) + 1];
    }
  }
}
