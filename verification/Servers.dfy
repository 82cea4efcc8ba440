/** The handlers as the program runs them, one request at a time: each does to the store
    what its protocol steps do, and answers what they say. */
module Servers {
  import opened Prelude
  import opened Config
  import opened Issuers
  import opened Objects
  import opened Protocol
  import opened Requests
  import opened Stores
  import Bearers
  import Json
  import Jwt
  import Numerals
  import Pkce
  import Scopes

  datatype TokenError =
    | InvalidClient(e: AuthError) | UnsupportedGrantType | ConfidentialOnly
    | UnknownCode | UnknownRefreshToken | OtherClient | RedirectMismatch
    | ProofFailed | PublicWithoutProof | PersonaGone | ServerError

  datatype AuthorizeReply = Refused(d: Decision) | CodeTo(uri: string, code: string)

  /** The store holds what the protocol state says, without the history. */
  ghost predicate Projects(c: Contents, s: State) {
    && c.issued == s.issued
    && c.codes == (map k | k in s.codes :: s.codes[k].grant)
    && c.refresh == (map k | k in s.refresh :: s.refresh[k].grant)
  }

  function TokenEntries(cfg: Config, access: string, refresh: string, id: string, scope: seq<string>): seq<Entry> {
    [("access_token", Json.Str(access)), ("token_type", Json.Str("Bearer")), ("expires_in", Number(ExpiresIn(cfg))),
     ("refresh_token", Json.Str(refresh)), ("id_token", Json.Str(id)), ("scope", Json.Str(Join(scope, " ")))]
  }

  /** The body of a token response. */
  function TokenBody(cfg: Config, access: string, refresh: string, id: string, scope: seq<string>): Object {
    Built(TokenEntries(cfg, access, refresh, id, scope))
  }

  /** Each field of a token response holds what it is named after. */
  lemma TokenBodyFields(cfg: Config, access: string, refresh: string, id: string, scope: seq<string>)
    ensures var o := TokenBody(cfg, access, refresh, id, scope);
            && o.keys == ["access_token", "token_type", "expires_in", "refresh_token", "id_token", "scope"]
            && Lookup(o, "access_token") == Some(Json.Str(access))
            && Lookup(o, "token_type") == Some(Json.Str("Bearer"))
            && Lookup(o, "expires_in") == Some(Number(ExpiresIn(cfg)))
            && Lookup(o, "refresh_token") == Some(Json.Str(refresh))
            && Lookup(o, "id_token") == Some(Json.Str(id))
            && Lookup(o, "scope") == Some(Json.Str(Join(scope, " ")))
  {
    hide Built;
    hide Lookup;
    hide Join;
    hide Numerals.Decimal;
    var es := TokenEntries(cfg, access, refresh, id, scope);
    assert KeysIn(es) == ["access_token", "token_type", "expires_in", "refresh_token", "id_token", "scope"];
    BuiltKeys(es);
    BuiltLookup(es, 0);
    BuiltLookup(es, 1);
    BuiltLookup(es, 2);
    BuiltLookup(es, 3);
    BuiltLookup(es, 4);
    BuiltLookup(es, 5);
  }

  function MachineEntries(cfg: Config, access: string, scopes: seq<string>): seq<Entry> {
    [("access_token", Json.Str(access)), ("token_type", Json.Str("Bearer")), ("expires_in", Number(ExpiresIn(cfg))),
     ("scope", Json.Str(Join(scopes, " ")))]
  }

  /** What a machine client is told: a bearer token for itself, signed over the claims that
      name it as subject, client and audience, with the scopes it asked for. */
  lemma MachineAnswerSays(w: World, client: Client, scope: string, now: int)
    requires Jwt.Sound(w.iss.signer) && ProperPlatform(w.iss.platform)
    ensures var r := MachineAnswer(w, client, scope, now);
            var scopes, at := Scopes.Canonical(scope), IssueTime(w.iss.cfg, now);
            var o := ClientClaims(w.iss, client.id, scopes, at);
            && (r.Ok? <==> Jwt.SignJWT(w.iss.signer, o).Some?) && (r.Err? ==> r.error == ServerError)
            && (r.Ok? ==>
                  && r.value.keys == ["access_token", "token_type", "expires_in", "scope"]
                  && Lookup(r.value, "access_token") == Some(Json.Str(Jwt.SignJWT(w.iss.signer, o).value))
                  && Lookup(r.value, "token_type") == Some(Json.Str("Bearer"))
                  && Lookup(r.value, "expires_in") == Some(Number(ExpiresIn(w.iss.cfg)))
                  && Lookup(r.value, "scope") == Some(Json.Str(Join(scopes, " "))))
            && Bearers.Carries(o, w.iss, client.id, scopes, at) && Bearers.IssuedTo(o, client.id, at)
  {
    hide Built;
    hide Lookup;
    hide Join;
    hide Numerals.Decimal;
    hide Jwt.SignJWT;
    hide Scopes.Canonical;
    hide Bearers.Carries;
    hide Bearers.IssuedTo;
    hide AccessEntries;
    var scopes, at := Scopes.Canonical(scope), IssueTime(w.iss.cfg, now);
    Bearers.AccessBaseCarries(w.iss, client.id, client.id, scopes, at);
    match Jwt.SignJWT(w.iss.signer, ClientClaims(w.iss, client.id, scopes, at)) {
      case None =>
      case Some(access) => MachineBodyFields(w.iss.cfg, access, scopes);
    }
  }

  lemma MachineBodyFields(cfg: Config, access: string, scopes: seq<string>)
    ensures var o := Built(MachineEntries(cfg, access, scopes));
            && o.keys == ["access_token", "token_type", "expires_in", "scope"]
            && Lookup(o, "access_token") == Some(Json.Str(access))
            && Lookup(o, "token_type") == Some(Json.Str("Bearer"))
            && Lookup(o, "expires_in") == Some(Number(ExpiresIn(cfg)))
            && Lookup(o, "scope") == Some(Json.Str(Join(scopes, " ")))
  {
    hide Built;
    hide Lookup;
    hide Join;
    hide Numerals.Decimal;
    var es := MachineEntries(cfg, access, scopes);
    assert KeysIn(es) == ["access_token", "token_type", "expires_in", "scope"];
    BuiltKeys(es);
    BuiltLookup(es, 0);
    BuiltLookup(es, 1);
    BuiltLookup(es, 2);
    BuiltLookup(es, 3);
  }

  /** What a confidential client gets for its own credentials. */
  function MachineAnswer(w: World, client: Client, scope: string, now: int): Result<Object, TokenError>
    requires Jwt.Sound(w.iss.signer) && ProperPlatform(w.iss.platform)
  {
    var scopes := Scopes.Canonical(scope);
    match Jwt.SignJWT(w.iss.signer, ClientClaims(w.iss, client.id, scopes, IssueTime(w.iss.cfg, now)))
    case None => Err(ServerError)
    case Some(access) => Ok(Built(MachineEntries(w.iss.cfg, access, scopes)))
  }

  /** Why a taken grant is not settled, in the order of the checks. */
  function Rejection(w: World, p: Pending): (r: Option<TokenError>)
    requires ProperPlatform(w.iss.platform)
    ensures r.None? <==> Passes(w, p)
  {
    var g := p.held.grant;
    if g.clientID != p.client.id then Some(OtherClient)
    else if p.Rotate? then None
    else if p.redirectURI != g.redirectURI then Some(RedirectMismatch)
    else if g.challenge != "" then
      if Pkce.Proves(w.iss.platform, g.challenge, g.challengeMethod, p.verifier) then None else Some(ProofFailed)
    else if !p.authed then Some(PublicWithoutProof)
    else None
  }

  /** Which check rejects a taken grant: another client's, another redirect URI, a challenge that
      is not proved, or no challenge and no authentication; the first of them that fails. */
  lemma RejectionExactly(w: World, p: Pending)
    requires ProperPlatform(w.iss.platform)
    ensures var r, g := Rejection(w, p), p.held.grant;
            && (r == Some(OtherClient) <==> p.client.id != g.clientID)
            && (r == Some(RedirectMismatch) <==>
                  p.Redeem? && p.client.id == g.clientID && p.redirectURI != g.redirectURI)
            && (r == Some(ProofFailed) <==>
                  && p.Redeem? && p.client.id == g.clientID && p.redirectURI == g.redirectURI && g.challenge != ""
                  && !Pkce.Proves(w.iss.platform, g.challenge, g.challengeMethod, p.verifier))
            && (r == Some(PublicWithoutProof) <==>
                  && p.Redeem? && p.client.id == g.clientID && p.redirectURI == g.redirectURI && g.challenge == ""
                  && !p.authed)
  {
    hide Pkce.Proves;
  }

  /** The error of a token request that got a grant; the missing proof of a public client and
      the missing persona are not among them. */
  ghost predicate RejectedFor(w: World, p: Pending, r: Result<Object, TokenError>)
    requires ProperPlatform(w.iss.platform)
  {
    && (Rejection(w, p).Some? ==> r == Err(Rejection(w, p).value))
    && (r.Err? ==> r.error == ServerError || (Rejection(w, p) == Some(r.error) && r.error != PublicWithoutProof))
  }

  /** What a request is told, given the protocol state before and after its steps. */
  ghost predicate Answers(w: World, s: State, s': State, r: Result<Object, TokenError>) {
    if |s'.responses| == |s.responses| then r.Err?
    else
      && |s'.responses| == |s.responses| + 1
      && var x := s'.responses[|s.responses|];
         && x.root < |s'.log|
         && r == Ok(TokenBody(w.iss.cfg, x.access, x.refresh, x.id, s'.log[x.root].scope))
  }

  /** What /token answers to a request that takes the protocol from s to s1 and then to s':
      a client that is not authenticated and an unknown grant type are told so, an unknown
      code or refresh token likewise, and a grant that was taken is answered or rejected for
      the first check that fails; a machine client gets its own token. */
  ghost predicate TokenAnswer(w: World, r: TokenRequest, scope: string, now: int, s: State, s1: State, s': State,
                              res: Result<Object, TokenError>)
    requires Jwt.Sound(w.iss.signer) && ProperPlatform(w.iss.platform)
  {
    match AuthenticateClient(w.iss.cfg, r.formID, r.formSecret, r.basic)
    case Err(e) => s' == s && res == Err(InvalidClient(e))
    case Ok((client, authed)) =>
      if r.grantType == "authorization_code" then
        if r.code !in s.codes then s' == s && res == Err(UnknownCode)
        else
          Answers(w, s1, s', res) &&
          RejectedFor(w, Redeem(s.codes[r.code], client, authed, r.code, r.redirectURI, r.verifier), res)
      else if r.grantType == "refresh_token" then
        if r.refreshToken !in s.refresh then s' == s && res == Err(UnknownRefreshToken)
        else Answers(w, s1, s', res) && RejectedFor(w, Rotate(s.refresh[r.refreshToken], client), res)
      else if r.grantType == "client_credentials" then
        s' == s && res == if authed then MachineAnswer(w, client, scope, now) else Err(ConfidentialOnly)
      else s' == s && res == Err(UnsupportedGrantType)
  }

  lemma ProjectsNewCode(c: Contents, s: State, s': State, pl: Platform, seed: string, g: Grant, root: nat)
    requires ProperPlatform(pl) && Projects(c, s)
    requires s'.issued == s.issued + 1 && s'.refresh == s.refresh
    requires s'.codes == s.codes[Credential(pl, seed, Code, s.issued + 1) := Held(g, root)]
    ensures Projects(AfterNewCode(c, pl, seed, g), s')
  {
    hide Credential;
  }

  lemma ProjectsNewRefresh(c: Contents, s: State, s': State, pl: Platform, seed: string, h: Held)
    requires ProperPlatform(pl) && Projects(c, s)
    requires s'.issued == s.issued + 1 && s'.codes == s.codes
    requires s'.refresh == s.refresh[Credential(pl, seed, Refresh, s.issued + 1) := h]
    ensures Projects(AfterNewRefresh(c, pl, seed, h.grant), s')
  {
    hide Credential;
  }

  lemma ProjectsTake(c: Contents, s: State, s': State, code: string)
    requires Projects(c, s) && s'.issued == s.issued
    ensures Find(c.codes, code) == if code in s.codes then Some(s.codes[code].grant) else None
    ensures Find(c.refresh, code) == if code in s.refresh then Some(s.refresh[code].grant) else None
    ensures s'.codes == s.codes - {code} && s'.refresh == s.refresh ==> Projects(AfterTakeCode(c, code), s')
    ensures s'.codes == s.codes && s'.refresh == s.refresh - {code} ==> Projects(AfterTakeRefresh(c, code), s')
  {
  }

  lemma NotThere<V>(m: map<string, V>, k: string)
    ensures k !in m ==> m - {k} == m
  {
  }

  class Server {
    const w: World
    const store: Store

    ghost predicate Valid() {
      Up(w) && store.pl == w.iss.platform && store.seed == w.iss.cfg.seed
    }

    constructor (iss: Issuer, lib: Library)
      requires Serving(iss, lib)
      ensures Valid() && w == World(iss, lib) && fresh(store) && Projects(store.State(), START)
    {
      w := World(iss, lib);
      store := new Store(iss.cfg.seed, iss.platform);
    }

    /** The checks of handleAuthorize, in its order. */
    method CheckAuthorize(q: AuthorizeRequest) returns (d: Decision)
      ensures d == Decide(w.iss.cfg, q)
    {
      var client := ClientById(w.iss.cfg, q.clientID);
      if client.None? { return UnknownClient; }
      var allowed := IsRedirectAllowed(client.value, q.redirectURI);
      if !allowed { return UnregisteredRedirect; }
      if q.responseType != "code" { return RefusedTo(q.redirectURI, UnsupportedResponseType); }
      var scopes := Scopes.SplitScope(q.scope);
      var openid := Scopes.HasScope(scopes, OPENID);
      if !openid { return RefusedTo(q.redirectURI, InvalidScope); }
      if !Pkce.ValidChallengeMethod(q.challengeMethod) { return RefusedTo(q.redirectURI, UnsupportedMethod); }
      if q.challenge == "" && client.value.secret == "" { return RefusedTo(q.redirectURI, ChallengeRequired); }
      if q.challenge == "" && q.challengeMethod != "" { return RefusedTo(q.redirectURI, MethodWithoutChallenge); }
      if q.persona == "" { return Picker; }
      var persona := PersonaNamed(w.iss.cfg, q.persona);
      if persona.None? { return RefusedTo(q.redirectURI, UnknownPersona); }
      return Issue(Grant(client.value.id, q.redirectURI, persona.value.name, q.nonce, scopes,
                         q.challenge, q.challengeMethod));
    }

    method HandleAuthorize(q: AuthorizeRequest, ghost s: State) returns (r: AuthorizeReply)
      requires Valid() && Projects(store.State(), s)
      modifies store
      ensures var s' := AfterAuthorize(w, s, q);
              && Projects(store.State(), s')
              && r == match Decide(w.iss.cfg, q)
                      case Issue(g) => CodeTo(q.redirectURI, s'.handed[|s.handed|])
                      case d => Refused(d)
    {
      hide Credential;
      hide Decide;
      hide Projects;
      hide ValidConfig;
      var d := CheckAuthorize(q);
      match d {
        case Issue(g) =>
          ProjectsNewCode(store.State(), s, AfterAuthorize(w, s, q), store.pl, store.seed, g, |s.log|);
          assert store.State().issued == s.issued by { ProjectsCount(store.State(), s); }
          var code := store.NewCode(g);
          return CodeTo(q.redirectURI, code);
        case _ => return Refused(d);
      }
    }

    /** tokenResponse: from the settled checks on. Of its errors only the signer's is possible. */
    method TokenResponse(grant: Grant, now: int, ghost s: State, ghost rid: nat) returns (r: Result<Object, TokenError>)
      requires Valid() && Inv(w, s) && rid in s.flight && s.flight[rid].held.grant == grant && Passes(w, s.flight[rid])
      requires Projects(store.State(), s)
      modifies store
      ensures var s' := AfterSettle(w, s, rid, now);
              Projects(store.State(), s') && Answers(w, s, s', r) && (r.Err? ==> r.error == ServerError)
    {
      hide Credential;
      hide Projects;
      hide Passes;
      hide Inv;
      hide Jwt.SignJWT;
      hide AccessClaims;
      hide IDClaims;
      hide TokenBody;
      hide ValidConfig;
      hide PersonaNamed;
      hide AfterSettle;
      hide Jwt.Sound;
      SettlesAs(w, s, rid, now);
      InFlightProper(w, s, rid);
      EntriesValid(w.iss.cfg, w.lib);
      ProjectsCount(store.State(), s);
      var persona := PersonaNamed(w.iss.cfg, grant.persona);
      if persona.None? { return Err(PersonaGone); }
      assert persona.value in w.iss.cfg.personas by { PersonaFound(w.iss.cfg, grant.persona); }
      var at := IssueTime(w.iss.cfg, now);
      var access := AccessToken(w.iss, persona.value, grant.clientID, grant.scope, at);
      ghost var s' := AfterSettle(w, s, rid, now);
      if access.None? {
        Unsettled(store.State(), s, s');
        return Err(ServerError);
      }
      var id := IDToken(w.iss, persona.value, grant.clientID, grant.nonce, grant.scope, at);
      if id.None? {
        Unsettled(store.State(), s, s');
        return Err(ServerError);
      }
      ProjectsNewRefresh(store.State(), s, s', store.pl, store.seed, s.flight[rid].held);
      var refresh := store.NewRefresh(grant);
      var body := BodyOf(w.iss.cfg, access.value, refresh, id.value, grant.scope);
      return Ok(body);
    }

    /** The rest of grantAuthorizationCode once the code is taken, from whatever state the
        store is in by then. */
    method SettleCode(grant: Grant, client: Client, authed: bool, r: TokenRequest, now: int, ghost s: State, ghost rid: nat)
      returns (res: Result<Object, TokenError>)
      requires Valid() && Inv(w, s) && Projects(store.State(), s) && rid in s.flight
      requires exists root: nat ::
                 s.flight[rid] == Redeem(Held(grant, root), client, authed, r.code, r.redirectURI, r.verifier)
      modifies store
      ensures var s' := AfterSettle(w, s, rid, now);
              Projects(store.State(), s') && Answers(w, s, s', res) && RejectedFor(w, s.flight[rid], res)
    {
      hide Credential;
      hide Projects;
      hide Inv;
      hide Mint;
      hide ValidConfig;
      hide TokenBody;
      NoPublicWithoutProof(w, s, rid);
      Unsettled(store.State(), s, s.(flight := s.flight - {rid}));
      if grant.clientID != client.id { return Err(OtherClient); }
      if r.redirectURI != grant.redirectURI { return Err(RedirectMismatch); }
      if grant.challenge != "" {
        var proved := Pkce.VerifyPKCE(w.iss.platform, grant.challenge, grant.challengeMethod, r.verifier);
        if !proved { return Err(ProofFailed); }
      } else if !authed {
        return Err(PublicWithoutProof);
      }
      res := TokenResponse(grant, now, s, rid);
    }

    /** The rest of grantRefreshToken once the token is taken, likewise. */
    method SettleRefresh(grant: Grant, client: Client, now: int, ghost s: State, ghost rid: nat)
      returns (res: Result<Object, TokenError>)
      requires Valid() && Inv(w, s) && Projects(store.State(), s) && rid in s.flight
      requires exists root: nat :: s.flight[rid] == Rotate(Held(grant, root), client)
      modifies store
      ensures var s' := AfterSettle(w, s, rid, now);
              Projects(store.State(), s') && Answers(w, s, s', res) && RejectedFor(w, s.flight[rid], res)
    {
      hide Credential;
      hide Projects;
      hide Inv;
      hide Mint;
      hide ValidConfig;
      hide TokenBody;
      Unsettled(store.State(), s, s.(flight := s.flight - {rid}));
      if grant.clientID != client.id { return Err(OtherClient); }
      res := TokenResponse(grant, now, s, rid);
    }

    /** The first store operation of a code exchange: one Take of the protocol, in any state. */
    method TakeCode(r: TokenRequest, ghost client: Client, ghost authed: bool, ghost s: State, ghost rid: nat)
      returns (found: Option<Grant>)
      requires Valid() && Projects(store.State(), s) && rid !in s.flight
      requires r.grantType == "authorization_code"
      requires AuthenticateClient(w.iss.cfg, r.formID, r.formSecret, r.basic) == Ok((client, authed))
      modifies store
      ensures var s1 := AfterTake(w, s, rid, r);
              && Projects(store.State(), s1)
              && (found.None? ==> s1 == s && r.code !in s.codes)
              && (found.Some? ==>
                    && r.code in s.codes && s.codes[r.code].grant == found.value && rid in s1.flight
                    && s1.flight[rid] == Redeem(s.codes[r.code], client, authed, r.code, r.redirectURI, r.verifier))
    {
      hide Projects;
      hide AuthenticateClient;
      ghost var s1 := AfterTake(w, s, rid, r);
      ProjectsTake(store.State(), s, s1, r.code);
      NotThere(s.codes, r.code);
      found := store.TakeCode(r.code);
    }

    /** The first store operation of a refresh, likewise. */
    method TakeRefresh(r: TokenRequest, ghost client: Client, ghost s: State, ghost rid: nat)
      returns (found: Option<Grant>)
      requires Valid() && Projects(store.State(), s) && rid !in s.flight
      requires r.grantType == "refresh_token"
      requires exists authed :: AuthenticateClient(w.iss.cfg, r.formID, r.formSecret, r.basic) == Ok((client, authed))
      modifies store
      ensures var s1 := AfterTake(w, s, rid, r);
              && Projects(store.State(), s1)
              && (found.None? ==> s1 == s && r.refreshToken !in s.refresh)
              && (found.Some? ==>
                    && r.refreshToken in s.refresh && s.refresh[r.refreshToken].grant == found.value && rid in s1.flight
                    && s1.flight[rid] == Rotate(s.refresh[r.refreshToken], client))
    {
      hide Projects;
      hide AuthenticateClient;
      ghost var s1 := AfterTake(w, s, rid, r);
      ProjectsTake(store.State(), s, s1, r.refreshToken);
      NotThere(s.refresh, r.refreshToken);
      found := store.TakeRefresh(r.refreshToken);
    }

    /** grantAuthorizationCode, run without another request in between: the take and the
        settling of the request `rid`. */
    method GrantAuthorizationCode(client: Client, authed: bool, r: TokenRequest, now: int, ghost s: State, ghost rid: nat)
      returns (res: Result<Object, TokenError>)
      requires Valid() && Inv(w, s) && Projects(store.State(), s) && rid !in s.flight
      requires r.grantType == "authorization_code"
      requires AuthenticateClient(w.iss.cfg, r.formID, r.formSecret, r.basic) == Ok((client, authed))
      modifies store
      ensures var s1 := AfterTake(w, s, rid, r);
              var s' := AfterSettle(w, s1, rid, now);
              && Projects(store.State(), s') && Answers(w, s1, s', res)
              && (r.code !in s.codes <==> res == Err(UnknownCode))
              && (r.code in s.codes ==>
                    RejectedFor(w, Redeem(s.codes[r.code], client, authed, r.code, r.redirectURI, r.verifier), res))
    {
      hide Projects;
      hide Inv;
      hide Answers;
      hide RejectedFor;
      hide ValidConfig;
      hide AuthenticateClient;
      ghost var s1 := AfterTake(w, s, rid, r);
      var found := TakeCode(r, client, authed, s, rid);
      if found.None? {
        res := Err(UnknownCode);
        Unanswered(w, s, res);
        return;
      }
      TakeKeeps(w, s, rid, r);
      hide AfterTake;
      hide AfterSettle;
      assert s1.flight[rid] == Redeem(Held(found.value, s.codes[r.code].root), client, authed, r.code, r.redirectURI,
                                      r.verifier);
      res := SettleCode(found.value, client, authed, r, now, s1, rid);
      NotUnknown(w, s1.flight[rid], res);
    }

    /** grantRefreshToken, likewise. */
    method GrantRefreshToken(client: Client, r: TokenRequest, now: int, ghost s: State, ghost rid: nat)
      returns (res: Result<Object, TokenError>)
      requires Valid() && Inv(w, s) && Projects(store.State(), s) && rid !in s.flight
      requires r.grantType == "refresh_token"
      requires exists authed :: AuthenticateClient(w.iss.cfg, r.formID, r.formSecret, r.basic) == Ok((client, authed))
      modifies store
      ensures var s1 := AfterTake(w, s, rid, r);
              var s' := AfterSettle(w, s1, rid, now);
              && Projects(store.State(), s') && Answers(w, s1, s', res)
              && (r.refreshToken !in s.refresh <==> res == Err(UnknownRefreshToken))
              && (r.refreshToken in s.refresh ==> RejectedFor(w, Rotate(s.refresh[r.refreshToken], client), res))
    {
      hide Projects;
      hide Inv;
      hide Answers;
      hide RejectedFor;
      hide ValidConfig;
      hide AuthenticateClient;
      ghost var s1 := AfterTake(w, s, rid, r);
      var found := TakeRefresh(r, client, s, rid);
      if found.None? {
        res := Err(UnknownRefreshToken);
        Unanswered(w, s, res);
        return;
      }
      TakeKeeps(w, s, rid, r);
      hide AfterTake;
      hide AfterSettle;
      assert s1.flight[rid] == Rotate(Held(found.value, s.refresh[r.refreshToken].root), client);
      res := SettleRefresh(found.value, client, now, s1, rid);
      NotUnknown(w, s1.flight[rid], res);
    }

    /** grantClientCredentials: a machine token, without the store. */
    method GrantClientCredentials(client: Client, scope: string, now: int) returns (res: Result<Object, TokenError>)
      requires Valid()
      ensures res == MachineAnswer(w, client, scope, now)
    {
      var scopes := Scopes.SplitScope(scope);
      var at := IssueTime(w.iss.cfg, now);
      var access := ClientCredentialsToken(w.iss, client.id, scopes, at);
      if access.None? { return Err(ServerError); }
      var body := NewObject(MachineEntries(w.iss.cfg, access.value, scopes));
      return Ok(body.Contents());
    }

    /** handleToken. The store takes the steps of the protocol and nothing else. */
    method HandleToken(r: TokenRequest, scope: string, now: int, ghost s: State, ghost rid: nat)
      returns (res: Result<Object, TokenError>)
      requires Valid() && Inv(w, s) && Projects(store.State(), s) && rid !in s.flight
      modifies store
      ensures var s1 := AfterTake(w, s, rid, r);
              var s' := AfterSettle(w, s1, rid, now);
              Projects(store.State(), s') && TokenAnswer(w, r, scope, now, s, s1, s', res)
    {
      hide Projects;
      hide Inv;
      hide Mint;
      hide Passes;
      hide ValidConfig;
      hide AuthenticateClient;
      hide MachineAnswer;
      hide TokenBody;
      hide Answers;
      hide RejectedFor;
      var auth := AuthenticateClient(w.iss.cfg, r.formID, r.formSecret, r.basic);
      match auth {
        case Err(e) => return Err(InvalidClient(e));
        case Ok((client, authed)) =>
          if r.grantType == "authorization_code" {
            res := GrantAuthorizationCode(client, authed, r, now, s, rid);
          } else if r.grantType == "refresh_token" {
            res := GrantRefreshToken(client, r, now, s, rid);
          } else if r.grantType == "client_credentials" {
            if !authed { return Err(ConfidentialOnly); }
            res := GrantClientCredentials(client, scope, now);
          } else {
            return Err(UnsupportedGrantType);
          }
      }
    }

    /** handleIntrospect. */
    method HandleIntrospect(r: TokenRequest, token: string, now: int) returns (res: Result<Object, AuthError>)
      ensures res == match AuthenticateClient(w.iss.cfg, r.formID, r.formSecret, r.basic)
                     case Err(e) => Err(e)
                     case Ok(_) => Ok(Bearers.Introspection(w.iss, token, now))
    {
      var auth := AuthenticateClient(w.iss.cfg, r.formID, r.formSecret, r.basic);
      if auth.Err? { return Err(auth.error); }
      return Ok(Bearers.Introspection(w.iss, token, now));
    }
  }

  lemma NotUnknown(w: World, p: Pending, r: Result<Object, TokenError>)
    requires ProperPlatform(w.iss.platform) && RejectedFor(w, p, r)
    ensures r != Err(UnknownCode) && r != Err(UnknownRefreshToken)
  {
  }

  lemma Unanswered(w: World, s: State, r: Result<Object, TokenError>)
    requires r.Err?
    ensures Answers(w, s, s, r)
  {
  }

  /** A reachable request of a public client always has a challenge to prove. */
  lemma NoPublicWithoutProof(w: World, s: State, rid: nat)
    requires Up(w) && Inv(w, s) && rid in s.flight
    ensures Rejection(w, s.flight[rid]) != Some(PublicWithoutProof)
  {
    hide ValidConfig;
    var p := s.flight[rid];
    assert HeldAt(s, InFlight(rid)) == Some(p.held);
    assert ProperGrant(w.iss.cfg, s.log[p.held.root]);
    assert ProperPending(w, p);
    UniqueClient(w.iss.cfg, w.lib, p.client);
  }

  lemma ProjectsCount(c: Contents, s: State)
    requires Projects(c, s)
    ensures c.issued == s.issued
  {
  }

  lemma Unsettled(c: Contents, s: State, s': State)
    requires Projects(c, s) && s'.issued == s.issued && s'.codes == s.codes && s'.refresh == s.refresh
    ensures Projects(c, s')
  {
  }

  /** What settling a request that passes the checks does, for whatever is minted. */
  lemma SettlesAs(w: World, s: State, rid: nat, now: int)
    requires Up(w) && rid in s.flight && Passes(w, s.flight[rid])
    ensures var s', h := AfterSettle(w, s, rid, now), s.flight[rid].held;
            match Mint(w, h.grant, now)
            case None =>
              && s'.responses == s.responses && s'.issued == s.issued
              && s'.codes == s.codes && s'.refresh == s.refresh
            case Some(m) =>
              var token := Credential(w.iss.platform, w.iss.cfg.seed, Refresh, s.issued + 1);
              && s'.issued == s.issued + 1 && s'.codes == s.codes && s'.refresh == s.refresh[token := h]
              && s'.log == s.log
              && s'.responses == s.responses
                                 + [Response(h.root, s.flight[rid].client.id, m.at, m.access, m.id, token)]
  {
    hide Credential;
    hide Passes;
    hide Mint;
    hide ValidConfig;
  }

  lemma PersonaFound(cfg: Config, name: string)
    requires PersonaNamed(cfg, name).Some?
    ensures PersonaNamed(cfg, name).value in cfg.personas
  {
  }

  lemma InFlightProper(w: World, s: State, rid: nat)
    requires Up(w) && Inv(w, s) && rid in s.flight
    ensures var h := s.flight[rid].held;
            h.root < |s.log| && s.log[h.root] == h.grant && PersonaNamed(w.iss.cfg, h.grant.persona).Some?
  {
    assert HeldAt(s, InFlight(rid)) == Some(s.flight[rid].held);
    assert ProperGrant(w.iss.cfg, s.log[s.flight[rid].held.root]);
  }

  /** The body, built key by key. */
  method BodyOf(cfg: Config, access: string, refresh: string, id: string, scope: seq<string>) returns (o: Object)
    ensures o == TokenBody(cfg, access, refresh, id, scope)
  {
    ghost var es := TokenEntries(cfg, access, refresh, id, scope);
    var body := NewObject([("access_token", Json.Str(access)), ("token_type", Json.Str("Bearer")),
                           ("expires_in", Number(ExpiresIn(cfg)))]);
    hide With;
    hide WellFormed;
    assert es[..6] == es && es[..4][..3] == es[..3] && es[..5][..4] == es[..4] && es[..6][..5] == es[..5];
    assert es[..3] == [("access_token", Json.Str(access)), ("token_type", Json.Str("Bearer")),
                       ("expires_in", Number(ExpiresIn(cfg)))];
    body.Set("refresh_token", Json.Str(refresh));
    assert body.Contents() == Built(es[..4]);
    body.Set("id_token", Json.Str(id));
    assert body.Contents() == Built(es[..5]);
    body.Set("scope", Json.Str(Join(scope, " ")));
    return body.Contents();
  }
}
