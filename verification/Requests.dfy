/** Decoded requests and the checks that depend only on the configuration: what /authorize
    decides and who a client at /token is. */
module Requests {
  import opened Prelude
  import opened Config
  import opened Stores
  import Issuers
  import Pkce
  import Scopes
  import Order

  // ----- /authorize -----

  datatype AuthorizeRequest = AuthorizeRequest(
    clientID: string, redirectURI: string, responseType: string, scope: string,
    challenge: string, challengeMethod: string, persona: string, nonce: string)

  datatype Refusal =
    | UnsupportedResponseType | InvalidScope | UnsupportedMethod | ChallengeRequired
    | MethodWithoutChallenge | UnknownPersona

  datatype Decision =
    | UnknownClient | UnregisteredRedirect
    | RefusedTo(uri: string, reason: Refusal)
    | Picker
    | Issue(grant: Grant)

  function Decide(cfg: Config, q: AuthorizeRequest): Decision {
    match ClientById(cfg, q.clientID)
    case None => UnknownClient
    case Some(client) =>
      if !RedirectAllowed(client, q.redirectURI) then UnregisteredRedirect
      else if q.responseType != "code" then RefusedTo(q.redirectURI, UnsupportedResponseType)
      else
        var scopes := Scopes.Canonical(q.scope);
        if Issuers.OPENID !in scopes then RefusedTo(q.redirectURI, InvalidScope)
        else if !Pkce.ValidChallengeMethod(q.challengeMethod) then RefusedTo(q.redirectURI, UnsupportedMethod)
        else if q.challenge == "" && client.secret == "" then RefusedTo(q.redirectURI, ChallengeRequired)
        else if q.challenge == "" && q.challengeMethod != "" then RefusedTo(q.redirectURI, MethodWithoutChallenge)
        else if q.persona == "" then Picker
        else
          match PersonaNamed(cfg, q.persona)
          case None => RefusedTo(q.redirectURI, UnknownPersona)
          case Some(p) =>
            Issue(Grant(client.id, q.redirectURI, p.name, q.nonce, scopes, q.challenge, q.challengeMethod))
  }

  /** The RedirectAllowed loop. */
  method IsRedirectAllowed(c: Client, uri: string) returns (ok: bool)
    ensures ok <==> RedirectAllowed(c, uri)
  {
    for i := 0 to |c.redirectURIs|
      invariant uri !in c.redirectURIs[..i]
    {
      if c.redirectURIs[i] == uri { return true; }
    }
    return false;
  }

  /** A grant that may exist: its client is known, its redirect URI registered for that
      client, its persona configured, its scopes distinct words with openid among them, its
      method supported, and a public client's challenge is not empty. */
  predicate ProperGrant(cfg: Config, g: Grant) {
    && ClientById(cfg, g.clientID).Some?
    && RedirectAllowed(ClientById(cfg, g.clientID).value, g.redirectURI)
    && PersonaNamed(cfg, g.persona).Some?
    && Order.Distinct(g.scope) && Scopes.Words(g.scope) && Issuers.OPENID in g.scope
    && Pkce.ValidChallengeMethod(g.challengeMethod)
    && (ClientById(cfg, g.clientID).value.secret == "" ==> g.challenge != "")
    && (g.challenge == "" ==> g.challengeMethod == "")
  }

  /** A code is issued exactly for the proper grant a complete code request describes. */
  lemma IssuedGrant(cfg: Config, q: AuthorizeRequest, g: Grant)
    ensures Decide(cfg, q) == Issue(g) <==>
            && ProperGrant(cfg, g) && q.responseType == "code" && q.persona != ""
            && g == Grant(q.clientID, q.redirectURI, q.persona, q.nonce, Scopes.Canonical(q.scope),
                          q.challenge, q.challengeMethod)
  {
    hide Scopes.Canonical;
    hide Scopes.Words;
    hide Order.Distinct;
    hide FindName;
    hide FindClient;
    hide RedirectAllowed;
    hide Pkce.ValidChallengeMethod;
    Scopes.SplitJoin(q.scope);
  }

  /** Nothing is ever sent to an unregistered URI: whenever /authorize redirects, with an
      error or a code, the target is registered for the requesting client. */
  lemma RedirectsAreRegistered(cfg: Config, q: AuthorizeRequest)
    ensures var d := Decide(cfg, q);
            var target := if d.RefusedTo? then Some(d.uri) else if d.Issue? then Some(d.grant.redirectURI) else None;
            target.Some? ==>
              exists c :: c in cfg.clients && c.id == q.clientID && RedirectAllowed(c, target.value)
  {
  }

  // ----- which answer /authorize gives -----

  /** A code request of the client `c` to one of its own redirect URIs. */
  predicate AsksCode(c: Client, q: AuthorizeRequest) {
    q.redirectURI in c.redirectURIs && q.responseType == "code"
  }

  /** ... with openid among the fields of its scope ... */
  predicate AsksOpenID(c: Client, q: AuthorizeRequest) {
    AsksCode(c, q) && "openid" in Scopes.Fields(q.scope)
  }

  /** ... and a challenge under a supported method, which only a confidential client may leave
      out, together with its method. */
  predicate AsksWell(c: Client, q: AuthorizeRequest) {
    AsksOpenID(c, q) && q.challengeMethod in {"", "plain", "S256"}
    && (q.challenge == "" ==> c.secret != "" && q.challengeMethod == "")
  }

  /** The first answer: the client is not known. */
  lemma UnknownExactly(cfg: Config, q: AuthorizeRequest)
    ensures Decide(cfg, q) == UnknownClient <==> forall c :: c in cfg.clients ==> c.id != q.clientID
  {
    hide Scopes.Canonical;
  }

  /** Every other answer, by the request, its client and the personas. */
  lemma DecideExactly(cfg: Config, lib: Library, q: AuthorizeRequest, c: Client)
    requires ValidConfig(cfg, lib) && c in cfg.clients && c.id == q.clientID
    ensures var d, uri := Decide(cfg, q), q.redirectURI;
            && (d == UnregisteredRedirect <==> uri !in c.redirectURIs)
            && (d == RefusedTo(uri, UnsupportedResponseType) <==> uri in c.redirectURIs && q.responseType != "code")
            && (d == RefusedTo(uri, InvalidScope) <==> AsksCode(c, q) && "openid" !in Scopes.Fields(q.scope))
            && (d == RefusedTo(uri, UnsupportedMethod) <==>
                  AsksOpenID(c, q) && q.challengeMethod !in {"", "plain", "S256"})
            && (d == RefusedTo(uri, ChallengeRequired) <==>
                  AsksOpenID(c, q) && q.challengeMethod in {"", "plain", "S256"} && q.challenge == "" && c.secret == "")
            && (d == RefusedTo(uri, MethodWithoutChallenge) <==>
                  AsksOpenID(c, q) && q.challengeMethod in {"plain", "S256"} && q.challenge == "" && c.secret != "")
            && (d == Picker <==> AsksWell(c, q) && q.persona == "")
            && (d == RefusedTo(uri, UnknownPersona) <==>
                  AsksWell(c, q) && q.persona != "" && forall p :: p in cfg.personas ==> p.name != q.persona)
            && (d.Issue? <==> AsksWell(c, q) && exists p :: p in cfg.personas && p.name == q.persona)
            && (d.RefusedTo? ==> d.uri == uri)
  {
    hide ValidConfig;
    UniqueClient(cfg, lib, c);
    ScopeAsked(q.scope, "openid");
    hide Scopes.Canonical;
    NamesNotEmpty(cfg, lib);
  }

  lemma ScopeAsked(scope: string, want: string)
    ensures want in Scopes.Canonical(scope) <==> want in Scopes.Fields(scope)
  {
    hide Scopes.Fields;
    assert Order.Elements(Scopes.Canonical(scope)) == Order.Elements(Scopes.Fields(scope));
    assert want in Scopes.Canonical(scope) <==> want in Order.Elements(Scopes.Canonical(scope));
    assert want in Scopes.Fields(scope) <==> want in Order.Elements(Scopes.Fields(scope));
  }

  lemma NamesNotEmpty(cfg: Config, lib: Library)
    requires ValidConfig(cfg, lib)
    ensures forall p :: p in cfg.personas ==> p.name != ""
  {
    EntriesValid(cfg, lib);
  }

  // ----- client authentication -----

  /** The credentials of Basic authentication: none, not unescapable, or an unescaped pair. */
  datatype Basic = NoBasic | Malformed | Credentials(id: string, secret: string)

  datatype AuthError =
    | MalformedBasic | MissingClientID | UnknownClientID
    | PublicHasNoSecret | SecretRequired | SecretMismatch

  function AuthenticateClient(cfg: Config, formID: string, formSecret: string, basic: Basic):
    Result<(Client, bool), AuthError>
  {
    if basic.Malformed? then Err(MalformedBasic)
    else
      var id := if basic.Credentials? then basic.id else formID;
      var secret := if basic.Credentials? then basic.secret else formSecret;
      if id == "" then Err(MissingClientID)
      else
        match ClientById(cfg, id)
        case None => Err(UnknownClientID)
        case Some(client) =>
          if client.secret == "" then
            if secret != "" then Err(PublicHasNoSecret) else Ok((client, false))
          else if secret == "" then Err(SecretRequired)
          else if secret != client.secret then Err(SecretMismatch)
          else Ok((client, true))
  }

  /** Authentication succeeds exactly for a known client and its own secret, which is empty
      for a public one; Basic credentials take precedence over form fields; and a client
      counts as authenticated exactly when it is confidential. */
  lemma Authenticated(cfg: Config, lib: Library, formID: string, formSecret: string, basic: Basic)
    requires ValidConfig(cfg, lib)
    ensures var r := AuthenticateClient(cfg, formID, formSecret, basic);
            var id := if basic.Credentials? then basic.id else formID;
            var secret := if basic.Credentials? then basic.secret else formSecret;
            && (r.Ok? <==> !basic.Malformed? && exists c :: c in cfg.clients && c.id == id && c.secret == secret)
            && (r.Ok? ==> r.value.0 in cfg.clients && r.value.0.id == id && (r.value.1 <==> r.value.0.secret != ""))
  {
    hide ValidConfig;
    var id := if basic.Credentials? then basic.id else formID;
    var secret := if basic.Credentials? then basic.secret else formSecret;
    forall c | c in cfg.clients ensures c.id != "" {
      EntriesValid(cfg, lib);
    }
    if c :| c in cfg.clients && c.id == id && c.secret == secret {
      UniqueClient(cfg, lib, c);
    }
  }

  /** Why a client is not authenticated, in the order of the checks: the id and secret presented
      are those of Basic authentication if there is one, else those of the form. */
  lemma RefusedClient(cfg: Config, lib: Library, formID: string, formSecret: string, basic: Basic)
    requires ValidConfig(cfg, lib)
    ensures var r := AuthenticateClient(cfg, formID, formSecret, basic);
            var id := if basic.Credentials? then basic.id else formID;
            var secret := if basic.Credentials? then basic.secret else formSecret;
            && (r == Err(MalformedBasic) <==> basic.Malformed?)
            && (r == Err(MissingClientID) <==> !basic.Malformed? && id == "")
            && (r == Err(UnknownClientID) <==>
                  !basic.Malformed? && id != "" && forall c :: c in cfg.clients ==> c.id != id)
            && (!basic.Malformed? ==>
                  forall c :: c in cfg.clients && c.id == id ==>
                    && (r == Err(PublicHasNoSecret) <==> c.secret == "" && secret != "")
                    && (r == Err(SecretRequired) <==> c.secret != "" && secret == "")
                    && (r == Err(SecretMismatch) <==> c.secret != "" && secret != "" && secret != c.secret)
                    && (r.Ok? <==> secret == c.secret)
                    && (r.Ok? ==> r.value == (c, c.secret != "")))
  {
    hide ValidConfig;
    var id := if basic.Credentials? then basic.id else formID;
    forall c | c in cfg.clients && c.id == id ensures ClientById(cfg, id) == Some(c) && c.id != "" {
      EntriesValid(cfg, lib);
      UniqueClient(cfg, lib, c);
    }
  }
}
