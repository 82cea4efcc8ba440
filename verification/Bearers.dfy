/** Bearer tokens: what /userinfo and /introspect accept, and what the tokens the issuer
    mints say when they come back. */
module Bearers {
  import opened Prelude
  import opened Objects
  import opened Config
  import opened Issuers
  import Json
  import Jwt
  import Numerals
  import Order
  import Scopes
  import Utf8

  datatype Error =
    | MissingBearer | Unverified(e: Jwt.Error) | IssuerMismatch | NotAccessToken | Expired
    | UnknownSubject

  const BEARER := "Bearer "

  function BearerToken(iss: Issuer, authorization: string, now: int): Result<Jwt.Token, Error> {
    if !IsPrefix(BEARER, authorization) then Err(MissingBearer)
    else
      match Jwt.VerifyJWT(iss.signer, authorization[|BEARER|..])
      case Err(e) => Err(Unverified(e))
      case Ok(t) =>
        if Jwt.StringClaim(t, "iss") != iss.cfg.issuer then Err(IssuerMismatch)
        else if Jwt.StringClaim(t, "token_use") != "access" then Err(NotAccessToken)
        else if Jwt.IntClaim(t, "exp") < Unix(IssueTime(iss.cfg, now)) then Err(Expired)
        else Ok(t)
  }

  /** The userinfo response: the claims of the persona the token's subject names. */
  ghost function UserinfoResult(iss: Issuer, authorization: string, now: int): Result<Object, Error>
    requires forall p :: p in iss.cfg.personas ==> ValidPersona(p)
  {
    match BearerToken(iss, authorization, now)
    case Err(e) => Err(e)
    case Ok(t) =>
      match PersonaNamed(iss.cfg, NameBySubject(iss.cfg.personas, Jwt.StringClaim(t, "sub")))
      case None => Err(UnknownSubject)
      case Some(p) => Ok(UserinfoClaims(iss, p, Scopes.Canonical(Jwt.StringClaim(t, "scope"))))
  }

  method HandleUserinfo(iss: Issuer, authorization: string, now: int) returns (r: Result<Object, Error>)
    requires forall p :: p in iss.cfg.personas ==> ValidPersona(p)
    ensures r == UserinfoResult(iss, authorization, now)
  {
    var tok := BearerToken(iss, authorization, now);
    if tok.Err? { return Err(tok.error); }
    var persona := PersonaNamed(iss.cfg, NameBySubject(iss.cfg.personas, Jwt.StringClaim(tok.value, "sub")));
    if persona.None? { return Err(UnknownSubject); }
    var scopes := Scopes.SplitScope(Jwt.StringClaim(tok.value, "scope"));
    var o := Userinfo(iss, persona.value, scopes);
    return Ok(o);
  }

  /** The introspection response for an authenticated client. */
  function Introspection(iss: Issuer, token: string, now: int): Object {
    var inactive := Built([("active", Json.Bool(false))]);
    match Jwt.VerifyJWT(iss.signer, token)
    case Err(_) => inactive
    case Ok(t) =>
      if Jwt.IntClaim(t, "exp") < Unix(IssueTime(iss.cfg, now)) then inactive
      else
        Built(ActiveEntries(t))
  }

  function ActiveEntries(t: Jwt.Token): seq<Entry> {
    [("active", Json.Bool(true)), ("iss", Json.Str(Jwt.StringClaim(t, "iss"))),
     ("sub", Json.Str(Jwt.StringClaim(t, "sub"))),
     ("aud", if "aud" in t.claims then t.claims["aud"] else Json.Null),
     ("client_id", Json.Str(Jwt.StringClaim(t, "client_id"))),
     ("exp", Number(Jwt.IntClaim(t, "exp"))), ("iat", Number(Jwt.IntClaim(t, "iat"))),
     ("scope", Json.Str(Jwt.StringClaim(t, "scope"))), ("token_type", Json.Str("Bearer"))]
  }

  // ----- minted tokens come back -----

  /** A signed token verifies, and an ASCII claim has the value it was signed with, cleaned;
      a claim that was not signed is not there. */
  lemma MintedClaim(s: Jwt.Signer, o: Object, k: string)
    requires Jwt.Sound(s) && WellFormed(o) && Encodable(o) && Jwt.SignJWT(s, o).Some? && Utf8.Ascii(k)
    ensures Jwt.VerifyJWT(s, Jwt.SignJWT(s, o).value).Ok?
    ensures var claims := Jwt.VerifyJWT(s, Jwt.SignJWT(s, o).value).value.claims;
            && (k in claims <==> k in o.vals)
            && (k in o.vals ==> Json.Encodable(o.vals[k]) && claims[k] == Json.CleanValue(o.vals[k]))
  {
    hide Jwt.VerifyJWT;
    hide Jwt.SignJWT;
    Jwt.VerifySigned(s, o);
    DecodedLookup(o.keys, o.vals, k);
    assert k in o.keys <==> k in Order.Elements(o.keys);
  }

  /** A minted string claim reads back cleaned. */
  lemma MintedString(s: Jwt.Signer, o: Object, k: string, v: string)
    requires Jwt.Sound(s) && WellFormed(o) && Encodable(o) && Jwt.SignJWT(s, o).Some? && Utf8.Ascii(k)
    requires Lookup(o, k) == Some(Json.Str(v))
    ensures Jwt.VerifyJWT(s, Jwt.SignJWT(s, o).value).Ok?
    ensures Jwt.StringClaim(Jwt.VerifyJWT(s, Jwt.SignJWT(s, o).value).value, k) == Json.Clean(v)
  {
    hide Jwt.VerifyJWT;
    hide Jwt.SignJWT;
    MintedClaim(s, o, k);
  }

  /** A minted 64-bit integer claim reads back unchanged. */
  lemma MintedInt(s: Jwt.Signer, o: Object, k: string, n: int)
    requires Jwt.Sound(s) && WellFormed(o) && Encodable(o) && Jwt.SignJWT(s, o).Some? && Utf8.Ascii(k)
    requires Lookup(o, k) == Some(Number(n)) && Numerals.MIN_INT64 <= n <= Numerals.MAX_INT64
    ensures Jwt.VerifyJWT(s, Jwt.SignJWT(s, o).value).Ok?
    ensures Jwt.IntClaim(Jwt.VerifyJWT(s, Jwt.SignJWT(s, o).value).value, k) == n
  {
    hide Jwt.VerifyJWT;
    hide Jwt.SignJWT;
    MintedClaim(s, o, k);
    Jwt.IntegerRead(Jwt.VerifyJWT(s, Jwt.SignJWT(s, o).value).value, k, n);
  }

  predicate Int64(n: int) {
    Numerals.MIN_INT64 <= n <= Numerals.MAX_INT64
  }

  /** The claims that decide what becomes of an access token. */
  ghost predicate Carries(o: Object, iss: Issuer, sub: string, scopes: seq<string>, at: int) {
    && WellFormed(o) && Encodable(o)
    && Lookup(o, "iss") == Some(Json.Str(iss.cfg.issuer))
    && Lookup(o, "sub") == Some(Json.Str(sub))
    && Lookup(o, "exp") == Some(Number(Unix(at + iss.cfg.ttl)))
    && Lookup(o, "scope") == Some(Json.Str(Join(scopes, " ")))
    && Lookup(o, "token_use") == Some(Json.Str("access"))
  }

  /** The claims that say for whom and when. */
  ghost predicate IssuedTo(o: Object, clientID: string, at: int) {
    && Lookup(o, "aud") == Some(Json.Str(clientID))
    && Lookup(o, "client_id") == Some(Json.Str(clientID))
    && Lookup(o, "iat") == Some(Number(Unix(at)))
  }

  lemma AccessBaseCarries(iss: Issuer, sub: string, clientID: string, scopes: seq<string>, at: int)
    requires ProperPlatform(iss.platform)
    ensures Carries(Built(AccessEntries(iss, sub, clientID, scopes, at)), iss, sub, scopes, at)
    ensures IssuedTo(Built(AccessEntries(iss, sub, clientID, scopes, at)), clientID, at)
  {
    hide Built;
    hide Lookup;
    var es := AccessEntries(iss, sub, clientID, scopes, at);
    AccessEncodable(iss, sub, clientID, scopes, at);
    AccessKeys(iss, sub, clientID, scopes, at);
    BuiltLookup(es, 0);
    BuiltLookup(es, 1);
    BuiltLookup(es, 2);
    BuiltLookup(es, 3);
    BuiltLookup(es, 4);
    BuiltLookup(es, 5);
    BuiltLookup(es, 7);
    BuiltLookup(es, 8);
  }

  /** Released claims leave them alone. */
  lemma AccessCarries(iss: Issuer, p: Persona, clientID: string, scopes: seq<string>, at: int)
    requires ValidPersona(p) && ProperPlatform(iss.platform)
    ensures Carries(AccessClaims(iss, p, clientID, scopes, at), iss, p.subject, scopes, at)
    ensures IssuedTo(AccessClaims(iss, p, clientID, scopes, at), clientID, at)
  {
    hide Lookup;
    hide Released;
    hide Built;
    var base := Built(AccessEntries(iss, p.subject, clientID, scopes, at));
    AccessBaseCarries(iss, p.subject, clientID, scopes, at);
    RegisteredKept(base, p, iss.platform, scopes);
    assert "iss" in RESERVED_CLAIMS && "sub" in RESERVED_CLAIMS && "exp" in RESERVED_CLAIMS
        && "scope" in RESERVED_CLAIMS && "token_use" in RESERVED_CLAIMS && "aud" in RESERVED_CLAIMS
        && "client_id" in RESERVED_CLAIMS && "iat" in RESERVED_CLAIMS;
  }

  /** The exact fate of a minted access token at bearerToken: with an issuer in valid UTF-8
      it is accepted until its exp has passed, and then refused as expired. */
  lemma AccessAccepted(iss: Issuer, o: Object, sub: string, scopes: seq<string>, at: int, now: int)
    requires Jwt.Sound(iss.signer) && Carries(o, iss, sub, scopes, at)
    requires Jwt.SignJWT(iss.signer, o).Some? && Int64(Unix(at + iss.cfg.ttl))
    ensures var r := BearerToken(iss, BEARER + Jwt.SignJWT(iss.signer, o).value, now);
            if !Utf8.Valid(iss.cfg.issuer) then r == Err(IssuerMismatch)
            else if Unix(at + iss.cfg.ttl) < Unix(IssueTime(iss.cfg, now)) then r == Err(Expired)
            else
              && r.Ok?
              && Jwt.StringClaim(r.value, "sub") == Json.Clean(sub)
              && Jwt.StringClaim(r.value, "scope") == Json.Clean(Join(scopes, " "))
  {
    hide Jwt.VerifyJWT;
    hide Jwt.SignJWT;
    hide Jwt.StringClaim;
    hide Jwt.IntClaim;
    hide Json.Clean;
    hide Utf8.Valid;
    var token := Jwt.SignJWT(iss.signer, o).value;
    assert (BEARER + token)[|BEARER|..] == token;
    AccessReadsBack(iss, o, sub, scopes, at);
    Json.CleanValid(iss.cfg.issuer);
  }

  lemma AccessReadsBack(iss: Issuer, o: Object, sub: string, scopes: seq<string>, at: int)
    requires Jwt.Sound(iss.signer) && Carries(o, iss, sub, scopes, at)
    requires Jwt.SignJWT(iss.signer, o).Some? && Int64(Unix(at + iss.cfg.ttl))
    ensures var r := Jwt.VerifyJWT(iss.signer, Jwt.SignJWT(iss.signer, o).value);
            && r.Ok?
            && Jwt.StringClaim(r.value, "iss") == Json.Clean(iss.cfg.issuer)
            && Jwt.StringClaim(r.value, "sub") == Json.Clean(sub)
            && Jwt.StringClaim(r.value, "scope") == Json.Clean(Join(scopes, " "))
            && Jwt.StringClaim(r.value, "token_use") == "access"
            && Jwt.IntClaim(r.value, "exp") == Unix(at + iss.cfg.ttl)
  {
    hide Jwt.VerifyJWT;
    hide Jwt.SignJWT;
    hide Jwt.StringClaim;
    hide Jwt.IntClaim;
    hide Json.Clean;
    hide Lookup;
    hide Jwt.Sound;
    MintedString(iss.signer, o, "iss", iss.cfg.issuer);
    MintedString(iss.signer, o, "sub", sub);
    MintedString(iss.signer, o, "scope", Join(scopes, " "));
    MintedString(iss.signer, o, "token_use", "access");
    MintedInt(iss.signer, o, "exp", Unix(at + iss.cfg.ttl));
    Json.CleanToAscii("access", "access");
  }

  /** The registered claims of an ID token, whatever the persona's custom claims are. */
  lemma IDTokenClaims(iss: Issuer, p: Persona, clientID: string, nonce: string, scopes: seq<string>, at: int)
    requires ValidPersona(p) && ProperPlatform(iss.platform)
    ensures var o := IDClaims(iss, p, clientID, nonce, scopes, at);
            && Lookup(o, "iss") == Some(Json.Str(iss.cfg.issuer))
            && Lookup(o, "sub") == Some(Json.Str(p.subject))
            && Lookup(o, "aud") == Some(Json.Str(clientID))
            && Lookup(o, "exp") == Some(Number(Unix(at + iss.cfg.ttl)))
            && Lookup(o, "iat") == Some(Number(Unix(at)))
            && Lookup(o, "auth_time") == Some(Number(Unix(at)))
            && Lookup(o, "nonce") == (if nonce == "" then None else Some(Json.Str(nonce)))
            && Lookup(o, "token_use") == None
  {
    hide Released;
    var base := Built(IDEntries(iss, p, clientID, nonce, at));
    IDBaseClaims(iss, p, clientID, nonce, at);
    hide Built;
    hide Lookup;
    hide IDEntries;
    RegisteredKept(base, p, iss.platform, scopes);
    assert "iss" in RESERVED_CLAIMS && "sub" in RESERVED_CLAIMS && "aud" in RESERVED_CLAIMS && "exp" in RESERVED_CLAIMS
        && "iat" in RESERVED_CLAIMS && "auth_time" in RESERVED_CLAIMS && "nonce" in RESERVED_CLAIMS
        && "token_use" in RESERVED_CLAIMS;
  }

  lemma IDBaseClaims(iss: Issuer, p: Persona, clientID: string, nonce: string, at: int)
    ensures var o := Built(IDEntries(iss, p, clientID, nonce, at));
            && Lookup(o, "iss") == Some(Json.Str(iss.cfg.issuer))
            && Lookup(o, "sub") == Some(Json.Str(p.subject))
            && Lookup(o, "aud") == Some(Json.Str(clientID))
            && Lookup(o, "exp") == Some(Number(Unix(at + iss.cfg.ttl)))
            && Lookup(o, "iat") == Some(Number(Unix(at)))
            && Lookup(o, "auth_time") == Some(Number(Unix(at)))
            && Lookup(o, "nonce") == (if nonce == "" then None else Some(Json.Str(nonce)))
            && Lookup(o, "token_use") == None
  {
    hide Built;
    var es := IDEntries(iss, p, clientID, nonce, at);
    var o := Built(es);
    IDKeys(iss, p, clientID, nonce, at);
    BuiltKeys(es);
    BuiltLookup(es, 0);
    BuiltLookup(es, 1);
    BuiltLookup(es, 2);
    BuiltLookup(es, 3);
    BuiltLookup(es, 4);
    BuiltLookup(es, 5);
    if nonce != "" { BuiltLookup(es, 6); }
    assert "token_use" !in o.vals by { assert "token_use" !in Order.Elements(o.keys); }
    assert nonce == "" ==> "nonce" !in o.vals by {
      if nonce == "" { NoNonce(iss, p, clientID, at); assert "nonce" !in Order.Elements(o.keys); }
    }
  }

  lemma NoNonce(iss: Issuer, p: Persona, clientID: string, at: int)
    ensures "nonce" !in KeysIn(IDEntries(iss, p, clientID, "", at))
  {
    hide Numerals.Decimal;
  }

  /** No ID token is ever accepted, for any persona, scopes and nonce, at any time. */
  lemma IDTokenRefused(iss: Issuer, p: Persona, clientID: string, nonce: string, scopes: seq<string>, at: int, now: int)
    requires ValidPersona(p) && Jwt.Sound(iss.signer) && ProperPlatform(iss.platform)
    requires Jwt.SignJWT(iss.signer, IDClaims(iss, p, clientID, nonce, scopes, at)).Some?
    ensures var token := Jwt.SignJWT(iss.signer, IDClaims(iss, p, clientID, nonce, scopes, at)).value;
            BearerToken(iss, BEARER + token, now)
            == Err(if Utf8.Valid(iss.cfg.issuer) then NotAccessToken else IssuerMismatch)
  {
    hide Jwt.VerifyJWT;
    hide Jwt.SignJWT;
    hide Json.Clean;
    hide IDClaims;
    hide Lookup;
    var o := IDClaims(iss, p, clientID, nonce, scopes, at);
    IDTokenClaims(iss, p, clientID, nonce, scopes, at);
    var token := Jwt.SignJWT(iss.signer, o).value;
    assert (BEARER + token)[|BEARER|..] == token;
    MintedString(iss.signer, o, "iss", iss.cfg.issuer);
    MintedAbsent(iss.signer, o, "token_use");
    Json.CleanValid(iss.cfg.issuer);
    hide Jwt.StringClaim;
    hide Utf8.Valid;
  }

  /** A string claim that was not signed reads back empty. */
  lemma MintedAbsent(s: Jwt.Signer, o: Object, k: string)
    requires Jwt.Sound(s) && WellFormed(o) && Encodable(o) && Jwt.SignJWT(s, o).Some? && Utf8.Ascii(k)
    requires Lookup(o, k) == None
    ensures Jwt.VerifyJWT(s, Jwt.SignJWT(s, o).value).Ok?
    ensures Jwt.StringClaim(Jwt.VerifyJWT(s, Jwt.SignJWT(s, o).value).value, k) == ""
  {
    hide Jwt.VerifyJWT;
    hide Jwt.SignJWT;
    MintedClaim(s, o, k);
  }

  /** /introspect calls a minted token of either kind active exactly until its exp has
      passed; it does not look at token_use. */
  lemma IntrospectionOfMinted(iss: Issuer, o: Object, at: int, now: int)
    requires Jwt.Sound(iss.signer) && WellFormed(o) && Encodable(o) && Jwt.SignJWT(iss.signer, o).Some?
    requires Lookup(o, "exp") == Some(Number(Unix(at + iss.cfg.ttl))) && Int64(Unix(at + iss.cfg.ttl))
    ensures Lookup(Introspection(iss, Jwt.SignJWT(iss.signer, o).value, now), "active")
         == Some(Json.Bool(Unix(at + iss.cfg.ttl) >= Unix(IssueTime(iss.cfg, now))))
  {
    hide Jwt.VerifyJWT;
    hide Jwt.SignJWT;
    hide Jwt.StringClaim;
    hide Jwt.IntClaim;
    hide ActiveEntries;
    hide Built;
    MintedInt(iss.signer, o, "exp", Unix(at + iss.cfg.ttl));
    var body := Introspection(iss, Jwt.SignJWT(iss.signer, o).value, now);
    if Unix(at + iss.cfg.ttl) < Unix(IssueTime(iss.cfg, now)) {
      BuiltLookup([("active", Json.Bool(false))], 0);
    } else {
      ActiveFirst(Jwt.VerifyJWT(iss.signer, Jwt.SignJWT(iss.signer, o).value).value);
    }
  }

  /** For an unexpired access token /introspect repeats its claims, cleaned. */
  lemma IntrospectionRepeats(iss: Issuer, o: Object, sub: string, clientID: string, scopes: seq<string>, at: int, now: int)
    requires Jwt.Sound(iss.signer) && Carries(o, iss, sub, scopes, at) && IssuedTo(o, clientID, at)
    requires Jwt.SignJWT(iss.signer, o).Some? && Int64(Unix(at + iss.cfg.ttl)) && Int64(Unix(at))
    requires Unix(at + iss.cfg.ttl) >= Unix(IssueTime(iss.cfg, now))
    ensures Introspection(iss, Jwt.SignJWT(iss.signer, o).value, now)
         == Built([("active", Json.Bool(true)), ("iss", Json.Str(Json.Clean(iss.cfg.issuer))),
                   ("sub", Json.Str(Json.Clean(sub))), ("aud", Json.Str(Json.Clean(clientID))),
                   ("client_id", Json.Str(Json.Clean(clientID))), ("exp", Number(Unix(at + iss.cfg.ttl))),
                   ("iat", Number(Unix(at))), ("scope", Json.Str(Json.Clean(Join(scopes, " ")))),
                   ("token_type", Json.Str("Bearer"))])
  {
    hide Jwt.VerifyJWT;
    hide Jwt.SignJWT;
    hide Jwt.StringClaim;
    hide Jwt.IntClaim;
    hide Json.Clean;
    hide Built;
    hide Lookup;
    AccessReadsBack(iss, o, sub, scopes, at);
    MintedString(iss.signer, o, "client_id", clientID);
    MintedInt(iss.signer, o, "iat", Unix(at));
    MintedAudience(iss.signer, o, clientID);
  }

  lemma MintedAudience(s: Jwt.Signer, o: Object, clientID: string)
    requires Jwt.Sound(s) && WellFormed(o) && Encodable(o) && Jwt.SignJWT(s, o).Some?
    requires Lookup(o, "aud") == Some(Json.Str(clientID))
    ensures var r := Jwt.VerifyJWT(s, Jwt.SignJWT(s, o).value);
            r.Ok? && "aud" in r.value.claims && r.value.claims["aud"] == Json.Str(Json.Clean(clientID))
  {
    hide Jwt.VerifyJWT;
    hide Jwt.SignJWT;
    hide Json.Clean;
    MintedClaim(s, o, "aud");
  }

  lemma ActiveFirst(t: Jwt.Token)
    ensures Lookup(Built(ActiveEntries(t)), "active") == Some(Json.Bool(true))
  {
    hide Built;
    hide Lookup;
    hide Jwt.StringClaim;
    hide Jwt.IntClaim;
    BuiltLookup(ActiveEntries(t), 0);
  }

  // ----- what /userinfo answers -----

  /** The userinfo claims do not depend on how the scopes were carried. */
  lemma SameUserinfo(iss: Issuer, p: Persona, scopes: seq<string>)
    requires ValidPersona(p) && Scopes.Words(scopes)
    ensures UserinfoClaims(iss, p, Scopes.Canonical(Json.Clean(Join(scopes, " ")))) == UserinfoClaims(iss, p, scopes)
  {
    hide Released;
    hide Scopes.Canonical;
    Scopes.ScopeSurvives(scopes, EMAIL);
    Scopes.ScopeSurvives(scopes, GROUPS);
    Scopes.ScopeSurvives(scopes, PROFILE);
    SameRelease(With(NOTHING, "sub", Json.Str(p.subject)), p, iss.platform, scopes,
                Scopes.Canonical(Json.Clean(Join(scopes, " "))));
  }

  lemma DifferentSubjects(iss: Issuer, p: Persona, q: Persona, a: seq<string>, b: seq<string>)
    requires ValidPersona(p) && ValidPersona(q) && p.subject != q.subject
    ensures UserinfoClaims(iss, p, a) != UserinfoClaims(iss, q, b)
  {
    SubjectOf(iss, p, a);
    SubjectOf(iss, q, b);
  }

  lemma SubjectOf(iss: Issuer, p: Persona, scopes: seq<string>)
    requires ValidPersona(p)
    ensures Lookup(UserinfoClaims(iss, p, scopes), "sub") == Some(Json.Str(p.subject))
  {
    hide Released;
    RegisteredKept(With(NOTHING, "sub", Json.Str(p.subject)), p, iss.platform, scopes);
    assert "sub" in RESERVED_CLAIMS;
  }

  /** While it is not expired, an access token minted for a persona and scopes gets exactly
      that persona's userinfo claims under those scopes, if and only if the issuer and the
      subject are valid UTF-8. */
  lemma UserinfoOfAccess(iss: Issuer, lib: Library, p: Persona, clientID: string, scopes: seq<string>, at: int, now: int)
    requires Serving(iss, lib) && p in iss.cfg.personas && ValidPersona(p) && Scopes.Words(scopes)
    requires Jwt.SignJWT(iss.signer, AccessClaims(iss, p, clientID, scopes, at)).Some?
    requires Int64(Unix(at + iss.cfg.ttl)) && Unix(at + iss.cfg.ttl) >= Unix(IssueTime(iss.cfg, now))
    ensures (var token := Jwt.SignJWT(iss.signer, AccessClaims(iss, p, clientID, scopes, at)).value;
            EntriesValid(iss.cfg, lib);
            UserinfoResult(iss, BEARER + token, now) == Ok(UserinfoClaims(iss, p, scopes))
            <==> Utf8.Valid(iss.cfg.issuer) && Utf8.Valid(p.subject))
  {
    hide Jwt.SignJWT;
    hide Released;
    hide Json.Clean;
    hide ValidConfig;
    hide AccessClaims;
    hide UserinfoClaims;
    hide BearerToken;
    hide Scopes.Canonical;
    hide NameBySubject;
    hide FindName;
    EntriesValid(iss.cfg, lib);
    var o := AccessClaims(iss, p, clientID, scopes, at);
    AccessCarries(iss, p, clientID, scopes, at);
    AccessAccepted(iss, o, p.subject, scopes, at, now);
    SameUserinfo(iss, p, scopes);
    Json.CleanValid(p.subject);
    if Utf8.Valid(iss.cfg.issuer) {
      var sub := Json.Clean(p.subject);
      LookupBySubject(iss.cfg, lib, sub, p);
      var found := PersonaNamed(iss.cfg, NameBySubject(iss.cfg.personas, sub));
      if found.Some? {
        LookupBySubject(iss.cfg, lib, sub, found.value);
        if !Utf8.Valid(p.subject) {
          DifferentSubjects(iss, p, found.value, scopes, Scopes.Canonical(Json.Clean(Join(scopes, " "))));
        }
      }
    }
  }

  /** A machine client's token is refused by /userinfo exactly when no persona's subject is
      what the client id reads back as; otherwise it gets that persona's userinfo claims, as if
      it had been minted for the persona. */
  lemma UserinfoOfClient(iss: Issuer, lib: Library, clientID: string, scopes: seq<string>, at: int, now: int)
    requires Serving(iss, lib) && Utf8.Valid(iss.cfg.issuer)
    requires Jwt.SignJWT(iss.signer, ClientClaims(iss, clientID, scopes, at)).Some?
    requires Int64(Unix(at + iss.cfg.ttl)) && Unix(at + iss.cfg.ttl) >= Unix(IssueTime(iss.cfg, now))
    ensures (var token := Jwt.SignJWT(iss.signer, ClientClaims(iss, clientID, scopes, at)).value;
            EntriesValid(iss.cfg, lib);
            var r := UserinfoResult(iss, BEARER + token, now);
            && (r == Err(UnknownSubject) <==> forall q :: q in iss.cfg.personas ==> q.subject != Json.Clean(clientID))
            && (forall q :: q in iss.cfg.personas && q.subject == Json.Clean(clientID) ==>
                  && r == Ok(UserinfoClaims(iss, q, Scopes.Canonical(Json.Clean(Join(scopes, " ")))))
                  && (Scopes.Words(scopes) ==> r == Ok(UserinfoClaims(iss, q, scopes)))))
  {
    hide Jwt.SignJWT;
    hide Json.Clean;
    hide ValidConfig;
    hide ClientClaims;
    hide UserinfoClaims;
    hide BearerToken;
    hide Scopes.Canonical;
    hide NameBySubject;
    hide FindName;
    EntriesValid(iss.cfg, lib);
    var o := ClientClaims(iss, clientID, scopes, at);
    assert Carries(o, iss, clientID, scopes, at) by { ClientCarries(iss, clientID, scopes, at); }
    AccessAccepted(iss, o, clientID, scopes, at, now);
    var sub := Json.Clean(clientID);
    var found := PersonaNamed(iss.cfg, NameBySubject(iss.cfg.personas, sub));
    if found.Some? {
      LookupBySubject(iss.cfg, lib, sub, found.value);
    }
    forall q | q in iss.cfg.personas && q.subject == sub
      ensures found == Some(q)
      ensures Scopes.Words(scopes) ==>
                UserinfoClaims(iss, q, Scopes.Canonical(Json.Clean(Join(scopes, " ")))) == UserinfoClaims(iss, q, scopes)
    {
      LookupBySubject(iss.cfg, lib, sub, q);
      if Scopes.Words(scopes) { SameUserinfo(iss, q, scopes); }
    }
  }

  lemma ClientCarries(iss: Issuer, clientID: string, scopes: seq<string>, at: int)
    requires ProperPlatform(iss.platform)
    ensures Carries(ClientClaims(iss, clientID, scopes, at), iss, clientID, scopes, at)
  {
    hide Carries;
    AccessBaseCarries(iss, clientID, clientID, scopes, at);
  }

  // ----- exactly what is accepted, over any header and any text -----

  /** The header is the Bearer scheme with this text. */
  predicate Presents(authorization: string, token: string) {
    authorization == "Bearer " + token
  }

  /** The current second by the issuer's clock. */
  function Second(iss: Issuer, now: int): int {
    Unix(IssueTime(iss.cfg, now))
  }

  /** An exp that has not passed. */
  ghost predicate Unexpired(iss: Issuer, t: Jwt.Token, now: int) {
    exists exp :: Jwt.SaysInt(t.claims, "exp", exp) && exp >= Second(iss, now)
  }

  /** An access token of this issuer that has not expired. */
  ghost predicate LiveAccess(iss: Issuer, t: Jwt.Token, now: int) {
    Jwt.Says(t.claims, "iss", iss.cfg.issuer) && Jwt.Says(t.claims, "token_use", "access") && Unexpired(iss, t, now)
  }

  lemma ClaimSays(t: Jwt.Token, name: string)
    ensures forall v :: Jwt.Says(t.claims, name, v) <==> Jwt.StringClaim(t, name) == v
    ensures forall n :: Jwt.SaysInt(t.claims, name, n) <==> Jwt.IntClaim(t, name) == n
  {
    hide Numerals.ParseInt64;
  }

  lemma PresentsIs(authorization: string)
    ensures IsPrefix(BEARER, authorization) ==> Presents(authorization, authorization[|BEARER|..])
    ensures forall token :: Presents(authorization, token) ==>
              IsPrefix(BEARER, authorization) && authorization[|BEARER|..] == token
  {
  }

  lemma UnexpiredSays(iss: Issuer, t: Jwt.Token, now: int)
    ensures Unexpired(iss, t, now) <==> Jwt.IntClaim(t, "exp") >= Second(iss, now)
  {
    hide Jwt.SaysInt;
    hide Jwt.IntClaim;
    ClaimSays(t, "exp");
    assert Jwt.SaysInt(t.claims, "exp", Jwt.IntClaim(t, "exp"));
  }

  /** The outcome for any Authorization header: no Bearer token, a text that is no token of the
      signer, or a token of the signer, refused for its issuer, its use or its age in this order
      and accepted otherwise. */
  lemma BearerExactly(iss: Issuer, authorization: string, now: int)
    ensures var r := BearerToken(iss, authorization, now);
            && (r == Err(MissingBearer) <==> forall token :: !Presents(authorization, token))
            && (r.Err? && r.error.Unverified? <==>
                  exists token :: Presents(authorization, token) && forall t :: !Jwt.Authentic(iss.signer, token, t))
            && (forall token, t :: Presents(authorization, token) && Jwt.Authentic(iss.signer, token, t) ==>
                  r == if !Jwt.Says(t.claims, "iss", iss.cfg.issuer) then Err(IssuerMismatch)
                       else if !Jwt.Says(t.claims, "token_use", "access") then Err(NotAccessToken)
                       else if !Unexpired(iss, t, now) then Err(Expired)
                       else Ok(t))
  {
    hide Jwt.VerifyJWT;
    hide Jwt.Authentic;
    hide Jwt.Says;
    hide Jwt.SaysInt;
    hide Jwt.StringClaim;
    hide Jwt.IntClaim;
    hide Unexpired;
    hide Presents;
    PresentsIs(authorization);
    forall token, t ensures Jwt.VerifyJWT(iss.signer, token) == Ok(t) <==> Jwt.Authentic(iss.signer, token, t) {
      Jwt.VerifyExactly(iss.signer, token, t);
    }
    forall t: Jwt.Token
      ensures Jwt.Says(t.claims, "iss", iss.cfg.issuer) <==> Jwt.StringClaim(t, "iss") == iss.cfg.issuer
      ensures Jwt.Says(t.claims, "token_use", "access") <==> Jwt.StringClaim(t, "token_use") == "access"
      ensures Unexpired(iss, t, now) <==> Jwt.IntClaim(t, "exp") >= Second(iss, now)
    {
      ClaimSays(t, "iss");
      ClaimSays(t, "token_use");
      UnexpiredSays(iss, t, now);
    }
  }

  lemma BearerAccepts(iss: Issuer, authorization: string, now: int, t: Jwt.Token)
    ensures BearerToken(iss, authorization, now) == Ok(t) <==>
            exists token :: Presents(authorization, token) && Jwt.Authentic(iss.signer, token, t) && LiveAccess(iss, t, now)
  {
    hide BearerToken;
    hide Presents;
    hide Jwt.Authentic;
    hide Jwt.Says;
    hide Unexpired;
    BearerExactly(iss, authorization, now);
    if BearerToken(iss, authorization, now) == Ok(t) {
      var token :| Presents(authorization, token);
      var u :| Jwt.Authentic(iss.signer, token, u);
    }
  }

  /** The userinfo object of a persona for the scopes a token carries. */
  ghost predicate AnswersFor(iss: Issuer, t: Jwt.Token, p: Persona, o: Object)
    requires ValidPersona(p)
  {
    && Jwt.Says(t.claims, "sub", p.subject)
    && exists scope :: Jwt.Says(t.claims, "scope", scope) && o == UserinfoClaims(iss, p, Scopes.Canonical(scope))
  }

  /** /userinfo answers with an object exactly if the header presents a token of the signer, with
      the issuer's name, for use as an access token, unexpired, whose subject is a persona's; and
      then with that persona's claims for the scopes in the token. */
  lemma UserinfoExactly(iss: Issuer, lib: Library, authorization: string, now: int, o: Object)
    requires ValidConfig(iss.cfg, lib) && forall p :: p in iss.cfg.personas ==> ValidPersona(p)
    ensures UserinfoResult(iss, authorization, now) == Ok(o) <==>
            exists token, t, p ::
              && Presents(authorization, token) && Jwt.Authentic(iss.signer, token, t) && LiveAccess(iss, t, now)
              && p in iss.cfg.personas && AnswersFor(iss, t, p, o)
  {
    hide BearerToken;
    hide ValidConfig;
    hide Presents;
    hide Jwt.Authentic;
    hide LiveAccess;
    hide AnswersFor;
    hide ValidPersona;
    forall t ensures BearerToken(iss, authorization, now) == Ok(t) <==>
                     exists token :: Presents(authorization, token) && Jwt.Authentic(iss.signer, token, t)
                                     && LiveAccess(iss, t, now)
    {
      BearerAccepts(iss, authorization, now, t);
    }
    if BearerToken(iss, authorization, now).Ok? {
      AnswerOfToken(iss, lib, authorization, now, o);
    }
  }

  lemma AnswerOfToken(iss: Issuer, lib: Library, authorization: string, now: int, o: Object)
    requires ValidConfig(iss.cfg, lib) && forall p :: p in iss.cfg.personas ==> ValidPersona(p)
    requires BearerToken(iss, authorization, now).Ok?
    ensures UserinfoResult(iss, authorization, now) == Ok(o) <==>
            exists p :: p in iss.cfg.personas && AnswersFor(iss, BearerToken(iss, authorization, now).value, p, o)
  {
    hide BearerToken;
    hide ValidConfig;
    hide ValidPersona;
    hide UserinfoClaims;
    hide Scopes.Canonical;
    hide Jwt.Says;
    hide Jwt.StringClaim;
    hide PersonaNamed;
    hide NameBySubject;
    var t := BearerToken(iss, authorization, now).value;
    ClaimSays(t, "sub");
    ClaimSays(t, "scope");
    var sub := Jwt.StringClaim(t, "sub");
    var found := PersonaNamed(iss.cfg, NameBySubject(iss.cfg.personas, sub));
    forall p ensures found == Some(p) <==> p in iss.cfg.personas && p.subject == sub {
      LookupBySubject(iss.cfg, lib, sub, p);
    }
    assert Jwt.Says(t.claims, "scope", Jwt.StringClaim(t, "scope"));
  }

  /** When /userinfo says that the subject is no persona: for a live access token only. */
  lemma UnknownSubjectExactly(iss: Issuer, lib: Library, authorization: string, now: int)
    requires ValidConfig(iss.cfg, lib) && forall p :: p in iss.cfg.personas ==> ValidPersona(p)
    ensures UserinfoResult(iss, authorization, now) == Err(UnknownSubject) <==>
            exists token, t ::
              && Presents(authorization, token) && Jwt.Authentic(iss.signer, token, t) && LiveAccess(iss, t, now)
              && forall p :: p in iss.cfg.personas ==> !Jwt.Says(t.claims, "sub", p.subject)
  {
    hide BearerToken;
    hide ValidConfig;
    hide Presents;
    hide Jwt.Authentic;
    hide LiveAccess;
    hide ValidPersona;
    hide UserinfoClaims;
    hide Jwt.Says;
    hide Jwt.StringClaim;
    hide PersonaNamed;
    hide NameBySubject;
    var r := BearerToken(iss, authorization, now);
    forall t ensures r == Ok(t) <==> exists token :: Presents(authorization, token) && Jwt.Authentic(iss.signer, token, t)
                                                     && LiveAccess(iss, t, now)
    {
      BearerAccepts(iss, authorization, now, t);
    }
    BearerExactly(iss, authorization, now);
    if r.Ok? {
      ClaimSays(r.value, "sub");
      var sub := Jwt.StringClaim(r.value, "sub");
      forall p ensures PersonaNamed(iss.cfg, NameBySubject(iss.cfg.personas, sub)) == Some(p) <==>
                       p in iss.cfg.personas && p.subject == sub
      {
        LookupBySubject(iss.cfg, lib, sub, p);
      }
    }
  }

  // ----- /introspect, over any text -----

  /** A token of the signer, of either kind, that has not expired. */
  ghost predicate Active(iss: Issuer, token: string, t: Jwt.Token, now: int) {
    Jwt.Authentic(iss.signer, token, t) && Unexpired(iss, t, now)
  }

  /** What is said of an active token: its claims, each under its own name. */
  ghost predicate Repeats(o: Object, t: Jwt.Token) {
    && o.keys == ["active", "iss", "sub", "aud", "client_id", "exp", "iat", "scope", "token_type"]
    && Lookup(o, "active") == Some(Json.Bool(true))
    && (forall k, v :: k in {"iss", "sub", "client_id", "scope"} && Jwt.Says(t.claims, k, v) ==>
          Lookup(o, k) == Some(Json.Str(v)))
    && (forall k, n :: k in {"exp", "iat"} && Jwt.SaysInt(t.claims, k, n) ==> Lookup(o, k) == Some(Number(n)))
    && Lookup(o, "aud") == Some(if "aud" in t.claims then t.claims["aud"] else Json.Null)
    && Lookup(o, "token_type") == Some(Json.Str("Bearer"))
  }

  /** For every text: the response says active exactly if the text is a token of the signer that
      has not expired, and repeats its claims; otherwise it says inactive and nothing else. */
  lemma IntrospectionExactly(iss: Issuer, token: string, now: int)
    ensures var o := Introspection(iss, token, now);
            && (Lookup(o, "active") == Some(Json.Bool(true)) <==> exists t :: Active(iss, token, t, now))
            && (forall t :: Active(iss, token, t, now) ==> Repeats(o, t))
            && ((forall t :: !Active(iss, token, t, now)) ==>
                  o.keys == ["active"] && Lookup(o, "active") == Some(Json.Bool(false)))
  {
    hide Jwt.VerifyJWT;
    hide Jwt.Authentic;
    hide Jwt.IntClaim;
    hide Unexpired;
    hide Repeats;
    hide Built;
    hide Lookup;
    hide ActiveEntries;
    forall t ensures Jwt.VerifyJWT(iss.signer, token) == Ok(t) <==> Jwt.Authentic(iss.signer, token, t) {
      Jwt.VerifyExactly(iss.signer, token, t);
    }
    InactiveOnly();
    if Jwt.VerifyJWT(iss.signer, token).Ok? {
      var t := Jwt.VerifyJWT(iss.signer, token).value;
      UnexpiredSays(iss, t, now);
      ActiveRepeats(t);
      assert Active(iss, token, t, now) <==> Unexpired(iss, t, now);
    }
  }

  lemma InactiveOnly()
    ensures var o := Built([("active", Json.Bool(false))]); o.keys == ["active"] && Lookup(o, "active") == Some(Json.Bool(false))
  {
    var es := [("active", Json.Bool(false))];
    BuiltKeys(es);
    BuiltLookup(es, 0);
  }

  lemma ActiveRepeats(t: Jwt.Token)
    ensures Repeats(Built(ActiveEntries(t)), t) && Lookup(Built(ActiveEntries(t)), "active") == Some(Json.Bool(true))
  {
    hide Built;
    hide Lookup;
    hide Jwt.StringClaim;
    hide Jwt.IntClaim;
    hide Jwt.Says;
    hide Jwt.SaysInt;
    hide Numerals.Decimal;
    var es := ActiveEntries(t);
    assert KeysIn(es) == ["active", "iss", "sub", "aud", "client_id", "exp", "iat", "scope", "token_type"];
    BuiltKeys(es);
    ClaimSays(t, "iss");
    ClaimSays(t, "sub");
    ClaimSays(t, "client_id");
    ClaimSays(t, "scope");
    ClaimSays(t, "exp");
    ClaimSays(t, "iat");
    BuiltLookup(es, 0);
    BuiltLookup(es, 1);
    BuiltLookup(es, 2);
    BuiltLookup(es, 3);
    BuiltLookup(es, 4);
    BuiltLookup(es, 5);
    BuiltLookup(es, 6);
    BuiltLookup(es, 7);
    BuiltLookup(es, 8);
  }
}
