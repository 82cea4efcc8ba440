/** The hypotheses of the theorems can be met together, and what they exclude or decide does
    happen: a small server for any persona, a run of it that answers a code exchange and then
    authorizes again, and the configurations at which the sharp conditions fail. */
module Witness {
  import opened Prelude
  import opened Bearers
  import opened Config
  import opened Issuers
  import opened Protocol
  import opened Requests
  import opened Runs
  import opened Stores
  import Json
  import Jwt
  import Numerals
  import Objects
  import Scopes
  import TomlTree
  import Utf8

  // ----- a small server -----

  /** The last byte of a text. */
  function LastByte(x: string): char {
    if x != [] && x[|x| - 1] as int < 256 then x[|x| - 1] else '0'
  }

  const LIBRARY := Library(s => Some(Url("http", "localhost", "", "")), s => None, s => None)

  const SIGNER := Jwt.Signer("EdDSA", "key", m => Some(""), (m, s) => true)

  /** A hash that tells texts apart by their last byte. */
  const PLATFORM := Platform(x => seq(32, i => LastByte(x)), lit => "0")

  function ConfigFor(p: Persona): Config {
    Config("http://localhost", "seed", "EdDSA", "", 3600 * SECOND, None,
           [Client("app", "secret", ["http://localhost/cb"])], [p])
  }

  function ServerFor(p: Persona): World {
    World(Issuer(ConfigFor(p), SIGNER, PLATFORM), LIBRARY)
  }

  lemma ServerPlatform(p: Persona)
    ensures ServerFor(p).iss.platform == PLATFORM
  {
  }

  const ALICE := Persona("alice", "user-1", "", false, [], map[])

  lemma ConfigIsValid(p: Persona)
    requires ValidPersona(p)
    ensures ValidConfig(ConfigFor(p), LIBRARY)
  {
    hide CheckedPersona;
    hide FiniteClaims;
  }

  lemma SignerIsSound()
    ensures Jwt.Sound(SIGNER)
  {
    hide Utf8.Valid;
    Utf8.AsciiValid("EdDSA");
    Utf8.AsciiValid("key");
  }

  lemma PlatformIsProper()
    ensures ProperPlatform(PLATFORM)
  {
    assert Json.IsNumber("0") by { assert "0"[0..] == "0" && "0"[1..] == ""; }
    hide Json.IsNumber;
    hide Numerals.IsFloat;
  }

  lemma ServerIsUp(p: Persona)
    requires ValidPersona(p)
    ensures Up(ServerFor(p))
  {
    hide ValidConfig;
    hide Jwt.Sound;
    hide ProperPlatform;
    ConfigIsValid(p);
    SignerIsSound();
    PlatformIsProper();
  }

  // ----- a run -----

  const ASK := AuthorizeRequest("app", "http://localhost/cb", "code", "openid", "", "", "alice", "")

  const GRANT := Grant("app", "http://localhost/cb", "alice", "", ["openid"], "", "")

  /** The token request that presents `code`. */
  function Redeeming(code: string): TokenRequest {
    TokenRequest("app", "secret", NoBasic, "authorization_code", code, "http://localhost/cb", "", "")
  }

  /** Authorize, redeem the code, be answered, and authorize again. */
  function Events(p: Persona): seq<Event>
    requires ProperPlatform(PLATFORM)
  {
    [Authorize(ASK), Take(0, Redeeming(Named(ServerFor(p), Code, 1))), Settle(0, 0), Authorize(ASK)]
  }

  lemma OpenID()
    ensures Scopes.Canonical("openid") == ["openid"]
  {
    hide Scopes.IsWord;
    LettersAreWord("openid");
    Scopes.OneField("openid");
  }

  lemma {:induction false} LettersAreWord(w: string)
    requires w != [] && forall i :: 0 <= i < |w| ==> 'a' <= w[i] <= 'z'
    ensures Scopes.IsWord(w)
  {
    if |w| == 1 {
      assert w[1..] == [];
    } else {
      LettersAreWord(w[1..]);
    }
  }

  lemma Asked(p: Persona)
    requires p.name == "alice"
    ensures Decide(ConfigFor(p), ASK) == Issue(GRANT)
  {
    hide Scopes.Canonical;
    OpenID();
  }

  function AfterAuthorized(code: string): State {
    START.(issued := 1, codes := map[code := Held(GRANT, 0)], log := [GRANT], handed := [code])
  }

  function AfterTaken(code: string): State {
    AfterAuthorized(code).(codes := map[], flight := map[0 := Exchange(code)], taken := [code])
  }

  function Exchange(code: string): Pending {
    Redeem(Held(GRANT, 0), Client("app", "secret", ["http://localhost/cb"]), true, code, GRANT.redirectURI, "")
  }

  lemma Authorizes(p: Persona, s: State)
    requires ProperPlatform(PLATFORM) && p.name == "alice"
    ensures var s' := AfterAuthorize(ServerFor(p), s, ASK);
            && s'.log == s.log + [GRANT] && s'.responses == s.responses
            && s'.handed == s.handed + [Named(ServerFor(p), Code, s.issued + 1)]
    ensures s == START ==> AfterAuthorize(ServerFor(p), s, ASK) == AfterAuthorized(Named(ServerFor(p), Code, 1))
  {
    hide Decide;
    hide Credential;
    Asked(p);
    var code := Named(ServerFor(p), Code, 1);
    assert [] + [GRANT] == [GRANT] && [] + [code] == [code];
  }

  lemma Takes(p: Persona, code: string)
    ensures AfterTake(ServerFor(p), AfterAuthorized(code), 0, Redeeming(code)) == AfterTaken(code)
  {
    assert [] + [code] == [code];
    assert map[code := Held(GRANT, 0)] - {code} == map[];
  }

  lemma Settles(p: Persona, code: string)
    requires Up(ServerFor(p)) && p.name == "alice"
    ensures var s := AfterSettle(ServerFor(p), AfterTaken(code), 0, 0);
            |s.responses| == 1 && s.responses[0].at == 0 && s.log == [GRANT]
  {
    hide ValidConfig;
    hide Jwt.Sound;
    hide Mint;
    hide Credential;
    Minting(p);
    assert Passes(ServerFor(p), Exchange(code));
    hide Passes;
  }

  lemma Minting(p: Persona)
    requires Up(ServerFor(p)) && p.name == "alice"
    ensures Mint(ServerFor(p), GRANT, 0).Some? && Mint(ServerFor(p), GRANT, 0).value.at == 0
  {
    hide Jwt.SignJWT;
    hide AccessClaims;
    hide IDClaims;
    hide ValidConfig;
    forall o: Objects.Object | Objects.Encodable(o) ensures Jwt.SignJWT(SIGNER, o).Some? {
      Signs(o);
    }
  }

  lemma Signs(o: Objects.Object)
    requires Objects.Encodable(o) && Jwt.Sound(SIGNER)
    ensures Jwt.SignJWT(SIGNER, o).Some?
  {
    hide Jwt.SigningInput;
  }

  lemma RunOfFour(w: World, a: Event, b: Event, c: Event, d: Event)
    requires Up(w)
    ensures var es := [a, b, c, d];
            && Run(w, es[..3]) == Step(w, Step(w, Step(w, START, a), b), c)
            && Run(w, es) == Step(w, Run(w, es[..3]), d)
  {
    hide Up;
    hide Step;
    var es := [a, b, c, d];
    assert es[..3] == [a, b, c] && [a, b, c][..2] == [a, b] && [a, b][..1] == [a] && [a][..0] == [];
    assert Run(w, []) == START;
    assert Run(w, [a]) == Step(w, START, a);
    assert Run(w, [a, b]) == Step(w, Step(w, START, a), b);
  }

  lemma ThreeSteps(p: Persona)
    requires Up(ServerFor(p)) && ProperPlatform(PLATFORM) && p.name == "alice"
    ensures var w, code := ServerFor(p), Named(ServerFor(p), Code, 1);
            var s := Step(w, Step(w, Step(w, START, Authorize(ASK)), Take(0, Redeeming(code))), Settle(0, 0));
            |s.responses| == 1 && s.responses[0].at == 0 && s.log == [GRANT]
  {
    ServerPlatform(p);
    hide ServerFor;
    hide Up;
    hide Named;
    hide AfterAuthorize;
    hide AfterTake;
    hide AfterSettle;
    hide AfterAuthorized;
    hide AfterTaken;
    var code := Named(ServerFor(p), Code, 1);
    Authorizes(p, START);
    Takes(p, code);
    Settles(p, code);
  }

  /** The run before its last request ... */
  lemma RanThree(p: Persona)
    requires Up(ServerFor(p)) && ProperPlatform(PLATFORM) && p.name == "alice"
    ensures var s := Run(ServerFor(p), Events(p)[..3]);
            |s.responses| == 1 && s.responses[0].at == 0 && s.log == [GRANT]
  {
    ServerPlatform(p);
    ThreeSteps(p);
    hide ServerFor;
    hide Up;
    hide Named;
    hide Step;
    hide Redeeming;
    var w, code := ServerFor(p), Named(ServerFor(p), Code, 1);
    RunOfFour(w, Authorize(ASK), Take(0, Redeeming(code)), Settle(0, 0), Authorize(ASK));
    hide Run;
  }

  /** ... and after it. */
  lemma Ran(p: Persona)
    requires ValidPersona(p) && p.name == "alice"
    ensures Up(ServerFor(p)) && ProperPlatform(PLATFORM)
    ensures var s := Run(ServerFor(p), Events(p));
            && |s.responses| == 1 && s.responses[0].at == 0 && |s.log| == 2 && s.issued == 3
            && AuthorizedBy(ServerFor(p), Events(p), 1, 3)
  {
    ServerIsUp(p);
    PlatformIsProper();
    hide ServerFor;
    hide Up;
    hide ProperPlatform;
    hide Named;
    hide AfterAuthorize;
    hide AfterTake;
    hide AfterSettle;
    var w, es := ServerFor(p), Events(p);
    RanThree(p);
    RunOfFour(w, es[0], es[1], es[2], es[3]);
    Authorizes(p, Run(w, es[..3]));
    hide Run;
    IssuedCount(w, es);
    SecondAsked(w, es);
  }

  /** In a run whose requests are the first and the fourth, the fourth created the second
      authorization. */
  lemma SecondAsked(w: World, es: seq<Event>)
    requires Up(w) && |es| == 4 && es[1].Take? && es[2].Settle? && |Run(w, es).log| == 2
    ensures AuthorizedBy(w, es, 1, 3)
  {
    hide AuthorizedBy;
    hide Run;
    hide Up;
    var i := LoggedByAuthorize(w, es, 1);
    AuthorizedAt(w, es, 1, i);
    NothingAtFirst(w, es);
  }

  lemma AuthorizedAt(w: World, es: seq<Event>, root: nat, i: nat)
    requires Up(w) && AuthorizedBy(w, es, root, i)
    ensures i < |es| && es[i].Authorize? && |Run(w, es[..i]).log| == root
  {
    hide Up;
    hide Run;
    hide Decide;
    hide Credential;
  }

  lemma NothingAtFirst(w: World, es: seq<Event>)
    requires Up(w)
    ensures Run(w, es[..0]) == START
  {
    hide Up;
  }

  // ----- the hypotheses hold together -----

  lemma NamesDiffer(p: Persona, k: Kind, i: nat, j: nat)
    requires ProperPlatform(PLATFORM) && 1 <= i < j <= 3
    ensures Named(ServerFor(p), k, i) != Named(ServerFor(p), k, j)
  {
    NameDigit(p, k, i);
    NameDigit(p, k, j);
  }

  lemma NameDigit(p: Persona, k: Kind, n: nat)
    requires ProperPlatform(PLATFORM) && 1 <= n <= 3
    ensures Named(ServerFor(p), k, n)[4] == (n + '0' as int) as char
  {
    var text := "personad-" + Prefix(k) + "-v1:" + "seed" + ":" + Numerals.Decimal(n);
    assert Numerals.Decimal(n) == [(n + '0' as int) as char];
    assert LastByte(text) == (n + '0' as int) as char;
  }

  /** This server's first three issuance numbers do not collide. */
  lemma ThreeApart(p: Persona)
    requires ProperPlatform(PLATFORM)
    ensures CollisionFree(ServerFor(p), 3)
  {
    hide Named;
    forall k, i: nat, j: nat | 1 <= i < j <= 3 ensures Named(ServerFor(p), k, i) != Named(ServerFor(p), k, j) {
      NamesDiffer(p, k, i, j);
    }
  }

  /** The hypotheses of the run theorems hold together, for a run with three credentials: an
      answered code exchange and another code. */
  lemma Witnessed()
    ensures Up(ServerFor(ALICE)) && ProperPlatform(PLATFORM)
    ensures var w, s := ServerFor(ALICE), Run(ServerFor(ALICE), Events(ALICE));
            s.issued == 3 && |s.responses| == 1 && CollisionFree(w, s.issued) && Accounted(w, s)
  {
    Ran(ALICE);
    ThreeApart(ALICE);
    hide CollisionFree;
    hide Accounted;
    hide Run;
    hide Up;
    RunAccounted(ServerFor(ALICE), Events(ALICE));
  }

  // ----- where the sharp conditions fail -----

  /** The second code of this run is the one derived from 3, not the one derived from 2: a
      refresh token was issued in between. */
  lemma SecondCodeIsThird()
    ensures Up(ServerFor(ALICE)) && ProperPlatform(PLATFORM)
    ensures var w, s := ServerFor(ALICE), Run(ServerFor(ALICE), Events(ALICE));
            |s.handed| == 2 && s.handed[1] == Named(w, Code, 3) && s.handed[1] != Named(w, Code, 2)
  {
    hide ServerFor;
    hide Events;
    hide Run;
    hide Up;
    hide Decide;
    hide Credential;
    hide ValidPersona;
    NoClaims(ALICE);
    ServerPlatform(ALICE);
    Ran(ALICE);
    RanThree(ALICE);
    NamesDiffer(ALICE, Code, 2, 3);
    IssuedCount(ServerFor(ALICE), Events(ALICE));
  }

  /** /userinfo answers the token with the claims of `p` under `scopes`. */
  ghost predicate Gets(w: World, token: string, now: int, p: Persona, scopes: seq<string>)
    requires Up(w) && ValidPersona(p)
  {
    EntriesValid(w.iss.cfg, w.lib);
    UserinfoResult(w.iss, BEARER + token, now) == Ok(UserinfoClaims(w.iss, p, scopes))
  }

  const BOB := Persona("bob", "user-2", "", false, [], map["email" := TomlTree.Leaf(TomlTree.Str("bob@localhost"))])

  /** A valid configuration whose persona has a custom `email` claim: the profile scope releases
      it without the email scope. */
  lemma EmailWithoutScope()
    ensures ValidConfig(ConfigFor(BOB), LIBRARY) && ValidPersona(BOB)
    ensures var scopes := [OPENID, PROFILE];
            EMAIL !in scopes && EMAIL in UserinfoClaims(ServerFor(BOB).iss, BOB, scopes).vals
  {
    EmailNotReserved();
    ConfigIsValid(BOB);
    hide ValidConfig;
    hide UserinfoClaims;
    hide ValidPersona;
    EmailReleased(ServerFor(BOB).iss, BOB, [OPENID, PROFILE]);
  }

  lemma EmailReleased(iss: Issuer, p: Persona, scopes: seq<string>)
    requires ValidPersona(p) && EMAIL in p.claims && PROFILE in scopes
    ensures EMAIL in UserinfoClaims(iss, p, scopes).vals
  {
    hide Released;
    ReleasedValues(Objects.With(Objects.NOTHING, "sub", Json.Str(p.subject)), p, iss.platform, scopes, EMAIL);
  }

  lemma EmailNotReserved()
    ensures ValidPersona(BOB)
  {
    assert "email" !in RESERVED_CLAIMS;
  }

  const APP := Persona("alice", "app", "", false, [], map[])

  /** A valid configuration with a persona whose subject is a client's id: /userinfo answers the
      client's own token with that persona's claims. */
  lemma ClientTakenForPersona()
    ensures Up(ServerFor(APP)) && ProperPlatform(PLATFORM) && ValidPersona(APP)
    ensures var token := Jwt.SignJWT(SIGNER, ClientClaims(ServerFor(APP).iss, "app", [OPENID], 0));
            token.Some? && Gets(ServerFor(APP), token.value, 0, APP, [OPENID])
  {
    hide Up;
    hide ValidPersona;
    hide ProperPlatform;
    hide Gets;
    hide ClientClaims;
    hide Jwt.SignJWT;
    hide Jwt.Sound;
    hide Scopes.Words;
    hide Utf8.Valid;
    hide IssueTime;
    hide Unix;
    hide Int64;
    NoClaims(APP);
    ServerIsUp(APP);
    SignerIsSound();
    PlatformIsProper();
    TimesFit(APP);
    NamesAreText();
    WordsOfOpenID();
    Signs(ClientClaims(ServerFor(APP).iss, "app", [OPENID], 0));
    ClientAnswered(ServerFor(APP), APP, [OPENID], 0);
  }

  lemma TimesFit(p: Persona)
    ensures IssueTime(ConfigFor(p), 0) == 0 && Int64(Unix(IssueTime(ConfigFor(p), 0) + ConfigFor(p).ttl))
  {
  }

  lemma NamesAreText()
    ensures Utf8.Valid("app") && Utf8.Valid("http://localhost")
  {
    hide Utf8.Valid;
    Utf8.AsciiValid("app");
    Utf8.AsciiValid("http://localhost");
  }

  lemma WordsOfOpenID()
    ensures Scopes.Words([OPENID])
  {
    hide Scopes.IsWord;
    LettersAreWord(OPENID);
  }

  /** The token of a client whose id is a persona's subject gets that persona's claims. */
  lemma ClientAnswered(w: World, p: Persona, scopes: seq<string>, now: int)
    requires Up(w) && p in w.iss.cfg.personas && ValidPersona(p) && Scopes.Words(scopes)
    requires Utf8.Valid(w.iss.cfg.issuer) && Utf8.Valid(p.subject)
    requires var at := IssueTime(w.iss.cfg, now);
             && Int64(Unix(at + w.iss.cfg.ttl))
             && Jwt.SignJWT(w.iss.signer, ClientClaims(w.iss, p.subject, scopes, at)).Some?
    ensures var at := IssueTime(w.iss.cfg, now);
            Gets(w, Jwt.SignJWT(w.iss.signer, ClientClaims(w.iss, p.subject, scopes, at)).value, now, p, scopes)
  {
    hide ValidConfig;
    hide Utf8.Valid;
    hide Json.Clean;
    hide ClientClaims;
    hide UserinfoClaims;
    hide UserinfoResult;
    hide Jwt.SignJWT;
    hide Scopes.Canonical;
    hide Scopes.Words;
    Json.CleanValid(p.subject);
    UserinfoOfClient(w.iss, w.lib, p.subject, scopes, IssueTime(w.iss.cfg, now), now);
  }

  const CARL := Persona("alice", [Utf8.Byte(255)], "", false, [], map[])

  /** A valid configuration with a subject that is not UTF-8: the access token of a response
      does not get its persona's claims. */
  lemma SubjectLost()
    ensures Up(ServerFor(CARL)) && ProperPlatform(PLATFORM) && ValidPersona(CARL) && !Utf8.Valid(CARL.subject)
    ensures var s := Run(ServerFor(CARL), Events(CARL));
            |s.responses| == 1 && !Gets(ServerFor(CARL), s.responses[0].access, 0, CARL, [OPENID])
  {
    hide Up;
    hide ValidPersona;
    hide ProperPlatform;
    hide Run;
    hide AuthorizedBy;
    hide Gets;
    hide Events;
    hide IssueTime;
    hide Unix;
    hide Int64;
    hide PersonaNamed;
    hide Scopes.Canonical;
    hide Utf8.Valid;
    NoClaims(CARL);
    Ran(CARL);
    NotUtf8();
    OpenID();
    Asks(CARL);
    TimesFit(CARL);
    Lost(ServerFor(CARL), Events(CARL), 0, ASK, CARL);
  }

  lemma NoClaims(p: Persona)
    requires p.claims == map[] && p.name != "" && p.subject != ""
    ensures ValidPersona(p)
  {
  }

  lemma NotUtf8()
    ensures !Utf8.Valid(CARL.subject)
  {
  }

  lemma Asks(p: Persona)
    requires ProperPlatform(PLATFORM) && p.name == "alice"
    ensures var es := Events(p); forall j :: 0 <= j < |es| && es[j].Authorize? ==> es[j].q == ASK
    ensures PersonaNamed(ConfigFor(p), ASK.persona) == Some(p)
  {
    hide Named;
  }

  /** What EndToEnd says of a persona whose subject is not UTF-8. */
  lemma Lost(w: World, es: seq<Event>, k: nat, q: AuthorizeRequest, p: Persona)
    requires Up(w) && k < |Run(w, es).responses| && forall j :: 0 <= j < |es| && es[j].Authorize? ==> es[j].q == q
    requires PersonaNamed(w.iss.cfg, q.persona) == Some(p) && ValidPersona(p) && !Utf8.Valid(p.subject)
    requires Run(w, es).responses[k].at == IssueTime(w.iss.cfg, 0) && Int64(Unix(IssueTime(w.iss.cfg, 0) + w.iss.cfg.ttl))
    ensures !Gets(w, Run(w, es).responses[k].access, 0, p, Scopes.Canonical(q.scope))
  {
    hide Run;
    hide ValidConfig;
    hide Decide;
    hide Credential;
    hide UserinfoResult;
    hide UserinfoClaims;
    hide BearerToken;
    hide Scopes.Canonical;
    hide Utf8.Valid;
    var i := EndToEnd(w, es, k, 0);
  }
}
