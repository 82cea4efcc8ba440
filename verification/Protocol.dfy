/** The grant protocol as a transition system. Handlers run concurrently; every store
    operation is one atomic step, and between taking a grant and storing the next one a
    request holds the grant itself. */
module Protocol {
  import opened Prelude
  import opened Config
  import opened Issuers
  import opened Requests
  import opened Stores
  import Jwt
  import Pkce

  /** What does not change while a server runs. */
  datatype World = World(iss: Issuer, lib: Library)

  ghost predicate Up(w: World) {
    Serving(w.iss, w.lib)
  }

  /** A grant together with the number of the authorization it stems from. */
  datatype Held = Held(grant: Grant, root: nat)

  /** A token request between its two store operations. */
  datatype Pending =
    | Redeem(held: Held, client: Client, authed: bool, code: string, redirectURI: string, verifier: string)
    | Rotate(held: Held, client: Client)

  /** How a code was redeemed: what the request presented. */
  datatype Redemption = Redemption(code: string, redirectURI: string, verifier: string, authed: bool)

  datatype Response = Response(root: nat, clientID: string, at: int, access: string, id: string, refresh: string)

  /** The store, the requests in flight, and the history: the grants authorized so far and
      the codes handed out for them, the redemption of each, the responses sent, the
      credentials taken. */
  datatype State = State(
    issued: nat, codes: map<string, Held>, refresh: map<string, Held>, flight: map<nat, Pending>,
    log: seq<Grant>, handed: seq<string>, redeemed: map<nat, Redemption>, responses: seq<Response>, taken: seq<string>)

  const START := State(0, map[], map[], map[], [], [], map[], [], [])

  datatype TokenRequest = TokenRequest(
    formID: string, formSecret: string, basic: Basic, grantType: string,
    code: string, redirectURI: string, verifier: string, refreshToken: string)

  /** One atomic step: an /authorize request, the take of a token request, or the rest of
      that request up to its new refresh token. */
  datatype Event = Authorize(q: AuthorizeRequest) | Take(rid: nat, r: TokenRequest) | Settle(rid: nat, now: int)

  // ----- steps -----

  function AfterAuthorize(w: World, s: State, q: AuthorizeRequest): State
    requires ProperPlatform(w.iss.platform)
  {
    match Decide(w.iss.cfg, q)
    case Issue(g) =>
      var code := Credential(w.iss.platform, w.iss.cfg.seed, Code, s.issued + 1);
      s.(issued := s.issued + 1, codes := s.codes[code := Held(g, |s.log|)],
         log := s.log + [g], handed := s.handed + [code])
    case _ => s
  }

  function AfterTake(w: World, s: State, rid: nat, r: TokenRequest): State {
    if rid in s.flight then s
    else
      match AuthenticateClient(w.iss.cfg, r.formID, r.formSecret, r.basic)
      case Err(_) => s
      case Ok((client, authed)) =>
        if r.grantType == "authorization_code" && r.code in s.codes then
          s.(codes := s.codes - {r.code},
             flight := s.flight[rid := Redeem(s.codes[r.code], client, authed, r.code, r.redirectURI, r.verifier)],
             taken := s.taken + [r.code])
        else if r.grantType == "refresh_token" && r.refreshToken in s.refresh then
          s.(refresh := s.refresh - {r.refreshToken},
             flight := s.flight[rid := Rotate(s.refresh[r.refreshToken], client)],
             taken := s.taken + [r.refreshToken])
        else s
  }

  /** The checks between take and response. */
  predicate Passes(w: World, p: Pending)
    requires ProperPlatform(w.iss.platform)
  {
    && p.held.grant.clientID == p.client.id
    && (p.Redeem? ==>
          && p.redirectURI == p.held.grant.redirectURI
          && if p.held.grant.challenge != "" then
               Pkce.Proves(w.iss.platform, p.held.grant.challenge, p.held.grant.challengeMethod, p.verifier)
             else p.authed)
  }

  datatype Minted = Minted(at: int, access: string, id: string)

  /** The token pair of a grant; None when the persona is unknown or the signer fails. */
  ghost function Mint(w: World, g: Grant, now: int): Option<Minted>
    requires Up(w)
  {
    EntriesValid(w.iss.cfg, w.lib);
    match PersonaNamed(w.iss.cfg, g.persona)
    case None => None
    case Some(p) =>
      var at := IssueTime(w.iss.cfg, now);
      match (Jwt.SignJWT(w.iss.signer, AccessClaims(w.iss, p, g.clientID, g.scope, at)),
             Jwt.SignJWT(w.iss.signer, IDClaims(w.iss, p, g.clientID, g.nonce, g.scope, at)))
      case (Some(access), Some(id)) => Some(Minted(at, access, id))
      case _ => None
  }

  ghost function AfterSettle(w: World, s: State, rid: nat, now: int): State
    requires Up(w)
  {
    if rid !in s.flight then s
    else
      var p := s.flight[rid];
      var s1 := s.(flight := s.flight - {rid});
      if !Passes(w, p) then s1
      else
        match Mint(w, p.held.grant, now)
        case None => s1
        case Some(m) =>
          var token := Credential(w.iss.platform, w.iss.cfg.seed, Refresh, s.issued + 1);
          s1.(issued := s.issued + 1, refresh := s.refresh[token := p.held],
              redeemed := if p.Redeem? then
                            s.redeemed[p.held.root := Redemption(p.code, p.redirectURI, p.verifier, p.authed)]
                          else s.redeemed,
              responses := s.responses + [Response(p.held.root, p.client.id, m.at, m.access, m.id, token)])
  }

  ghost function Step(w: World, s: State, e: Event): State
    requires Up(w)
  {
    match e
    case Authorize(q) => AfterAuthorize(w, s, q)
    case Take(rid, r) => AfterTake(w, s, rid, r)
    case Settle(rid, now) => AfterSettle(w, s, rid, now)
  }

  /** The state after a run: any interleaving of the steps of any requests. */
  ghost function Run(w: World, es: seq<Event>): State
    requires Up(w)
  {
    if es == [] then START else Step(w, Run(w, es[..|es| - 1]), es[|es| - 1])
  }

  // ----- who holds a grant -----

  datatype Place = AtCode(c: string) | InFlight(rid: nat) | AtRefresh(t: string)

  function HeldAt(s: State, p: Place): Option<Held> {
    match p
    case AtCode(c) => Find(s.codes, c)
    case InFlight(rid) => if rid in s.flight then Some(s.flight[rid].held) else None
    case AtRefresh(t) => Find(s.refresh, t)
  }

  /** Whatever is held is a logged authorization's grant. */
  ghost predicate Rooted(s: State) {
    forall p :: HeldAt(s, p).Some? ==>
      HeldAt(s, p).value.root < |s.log| && HeldAt(s, p).value.grant == s.log[HeldAt(s, p).value.root]
  }

  ghost predicate Holds(s: State, p: Place, root: nat) {
    HeldAt(s, p).Some? && HeldAt(s, p).value.root == root
  }

  /** Each authorization has at most one holder. */
  ghost predicate SingleHolder(s: State) {
    forall p, q, root: nat :: Holds(s, p, root) && Holds(s, q, root) ==> p == q
  }

  ghost predicate Alive(s: State, root: nat) {
    exists p :: Holds(s, p, root)
  }

  /** What a step does to the holders: the holder at `to` came from `from` or holds the new
      authorization; `from` is given up; every other holder was there before. */
  ghost predicate Moves(s: State, s': State, from: Place, to: Place) {
    && s.log <= s'.log && |s'.log| <= |s.log| + 1
    && (forall p :: p != to && HeldAt(s', p).Some? ==> p != from && HeldAt(s', p) == HeldAt(s, p))
    && (HeldAt(s', to).Some? ==>
          || (HeldAt(s', to) == HeldAt(s, from) && s'.log == s.log)
          || (|s'.log| == |s.log| + 1 && HeldAt(s', to) == Some(Held(s'.log[|s.log|], |s.log|))))
  }

  lemma StepMoves(w: World, s: State, e: Event) returns (from: Place, to: Place)
    requires Up(w)
    ensures Moves(s, Step(w, s, e), from, to)
  {
    hide Up;
    hide Moves;
    hide AfterAuthorize;
    hide AfterTake;
    hide AfterSettle;
    match e {
      case Authorize(q) => from, to := AuthorizeMoves(w, s, q);
      case Take(rid, r) => from, to := TakeMoves(w, s, rid, r);
      case Settle(rid, now) => from, to := SettleMoves(w, s, rid, now);
    }
  }

  lemma AuthorizeMoves(w: World, s: State, q: AuthorizeRequest) returns (from: Place, to: Place)
    requires Up(w)
    ensures Moves(s, AfterAuthorize(w, s, q), from, to)
  {
    hide Credential;
    hide Decide;
    hide ValidConfig;
    to := AtCode(Credential(w.iss.platform, w.iss.cfg.seed, Code, s.issued + 1));
    from := to;
  }

  lemma TakeMoves(w: World, s: State, rid: nat, r: TokenRequest) returns (from: Place, to: Place)
    ensures Moves(s, AfterTake(w, s, rid, r), from, to)
  {
    hide AuthenticateClient;
    from := if r.grantType == "authorization_code" then AtCode(r.code) else AtRefresh(r.refreshToken);
    to := InFlight(rid);
    if AfterTake(w, s, rid, r) == s { from := to; }
  }

  lemma SettleMoves(w: World, s: State, rid: nat, now: int) returns (from: Place, to: Place)
    requires Up(w)
    ensures Moves(s, AfterSettle(w, s, rid, now), from, to)
  {
    hide Credential;
    hide Mint;
    hide Passes;
    hide ValidConfig;
    from := InFlight(rid);
    to := AtRefresh(Credential(w.iss.platform, w.iss.cfg.seed, Refresh, s.issued + 1));
    if |AfterSettle(w, s, rid, now).responses| == |s.responses| { to := from; }
  }

  /** The holder of an old authorization after a step held it before, possibly elsewhere. */
  lemma HolderBefore(s: State, s': State, from: Place, to: Place, p: Place, root: nat)
    requires Moves(s, s', from, to) && root < |s.log| && Holds(s', p, root)
    ensures Holds(s, if p == to then from else p, root) && (p != to ==> p != from)
  {
    hide HeldAt;
  }

  lemma HoldersKept(s: State, s': State, from: Place, to: Place)
    requires Rooted(s) && SingleHolder(s) && Moves(s, s', from, to)
    ensures Rooted(s') && SingleHolder(s')
  {
    hide HeldAt;
    forall p, q, root: nat | Holds(s', p, root) && Holds(s', q, root) ensures p == q {
      if root < |s.log| {
        HolderBefore(s, s', from, to, p, root);
        HolderBefore(s, s', from, to, q, root);
      }
    }
  }

  lemma DeadKept(s: State, s': State, from: Place, to: Place, root: nat)
    requires Moves(s, s', from, to) && root < |s.log| && !Alive(s, root)
    ensures !Alive(s', root)
  {
    hide HeldAt;
    if p :| Holds(s', p, root) {
      HolderBefore(s, s', from, to, p, root);
    }
  }

  // ----- every grant is proper -----

  ghost predicate ProperLog(w: World, s: State) {
    forall i :: 0 <= i < |s.log| ==> ProperGrant(w.iss.cfg, s.log[i])
  }

  /** A request in flight comes from a known client, authenticated if it is confidential. */
  ghost predicate ProperFlight(w: World, s: State) {
    forall rid :: rid in s.flight ==> ProperPending(w, s.flight[rid])
  }

  predicate ProperPending(w: World, p: Pending) {
    p.client in w.iss.cfg.clients && (p.Redeem? ==> (p.authed <==> p.client.secret != ""))
  }

  /** An authorization was redeemed by the code handed out for it, its own redirect URI and,
      if it carries a challenge, a verifier that proves it, else by the authenticated client. */
  predicate ProperRedemption(w: World, g: Grant, code: string, r: Redemption)
    requires ProperPlatform(w.iss.platform)
  {
    && r.code == code && r.redirectURI == g.redirectURI
    && if g.challenge != "" then Pkce.Proves(w.iss.platform, g.challenge, g.challengeMethod, r.verifier) else r.authed
  }

  ghost predicate ProperRedemptions(w: World, s: State)
    requires ProperPlatform(w.iss.platform)
  {
    forall root :: root in s.redeemed ==>
      root < |s.log| && root < |s.handed| && ProperRedemption(w, s.log[root], s.handed[root], s.redeemed[root])
  }

  /** A pending code is the one handed out for its authorization, also while a request
      holds it. */
  ghost predicate CodesBound(s: State) {
    && |s.handed| == |s.log|
    && (forall c :: c in s.codes ==> s.codes[c].root < |s.handed| && s.handed[s.codes[c].root] == c)
    && (forall rid :: rid in s.flight && s.flight[rid].Redeem? ==>
          s.flight[rid].held.root < |s.handed| && s.handed[s.flight[rid].held.root] == s.flight[rid].code)
  }

  /** An authorization whose code is pending, or held by the request that took it, is not
      redeemed; one that lives on in the refresh chain is. */
  ghost predicate RedeemedInOrder(s: State) {
    forall p :: HeldAt(s, p).Some? ==> (HeldAt(s, p).value.root in s.redeemed <==> Rotating(s, p))
  }

  predicate Rotating(s: State, p: Place) {
    match p
    case AtCode(_) => false
    case InFlight(rid) => rid in s.flight && s.flight[rid].Rotate?
    case AtRefresh(_) => true
  }

  /** A token response stems from one authorization that was redeemed before, goes to that
      authorization's client, and carries tokens for its persona, scope and nonce. */
  ghost predicate ProperResponse(w: World, s: State, x: Response)
    requires Up(w)
  {
    && x.root < |s.log| && x.root in s.redeemed
    && var g := s.log[x.root];
       && x.clientID == g.clientID
       && PersonaNamed(w.iss.cfg, g.persona).Some?
       && var p := PersonaNamed(w.iss.cfg, g.persona).value;
          EntriesValid(w.iss.cfg, w.lib);
          && Jwt.SignJWT(w.iss.signer, AccessClaims(w.iss, p, g.clientID, g.scope, x.at)) == Some(x.access)
          && Jwt.SignJWT(w.iss.signer, IDClaims(w.iss, p, g.clientID, g.nonce, g.scope, x.at)) == Some(x.id)
          && exists now :: x.at == IssueTime(w.iss.cfg, now)
  }

  ghost predicate ProperResponses(w: World, s: State)
    requires Up(w)
  {
    forall i :: 0 <= i < |s.responses| ==> ProperResponse(w, s, s.responses[i])
  }

  /** What every interleaving keeps. */
  ghost predicate Inv(w: World, s: State)
    requires Up(w)
  {
    && Rooted(s) && SingleHolder(s) && CodesBound(s) && ProperLog(w, s) && ProperFlight(w, s)
    && ProperRedemptions(w, s) && RedeemedInOrder(s) && ProperResponses(w, s)
  }

  lemma ResponsesKept(w: World, s: State, s': State)
    requires Up(w) && ProperResponses(w, s)
    requires s.log <= s'.log && s.redeemed.Keys <= s'.redeemed.Keys && s'.responses == s.responses
    ensures ProperResponses(w, s')
  {
    hide AccessClaims;
    hide IDClaims;
    forall i | 0 <= i < |s'.responses| ensures ProperResponse(w, s', s'.responses[i]) {
      assert ProperResponse(w, s, s.responses[i]);
      assert s'.log[s.responses[i].root] == s.log[s.responses[i].root];
    }
  }

  lemma HistoryKept(w: World, s: State, s': State)
    requires Up(w) && ProperLog(w, s) && ProperRedemptions(w, s) && ProperResponses(w, s)
    requires s'.log == s.log && s'.handed == s.handed && s'.redeemed == s.redeemed && s'.responses == s.responses
    ensures ProperLog(w, s') && ProperRedemptions(w, s') && ProperResponses(w, s')
  {
    hide ProperResponse;
    hide ProperRedemption;
    ResponsesKept(w, s, s');
  }

  lemma AuthorizeLog(w: World, s: State, q: AuthorizeRequest)
    requires Up(w) && ProperLog(w, s)
    ensures ProperLog(w, AfterAuthorize(w, s, q))
  {
    hide ProperGrant;
    hide Credential;
    if Decide(w.iss.cfg, q).Issue? {
      IssuedGrant(w.iss.cfg, q, Decide(w.iss.cfg, q).grant);
    }
  }

  lemma AuthorizeInOrder(w: World, s: State, q: AuthorizeRequest)
    requires Up(w) && RedeemedInOrder(s) && ProperRedemptions(w, s)
    ensures RedeemedInOrder(AfterAuthorize(w, s, q))
  {
    hide Credential;
    hide Decide;
    hide ProperRedemption;
    var s' := AfterAuthorize(w, s, q);
    forall p | HeldAt(s', p).Some? ensures HeldAt(s', p).value.root in s'.redeemed <==> Rotating(s', p) {
      if HeldAt(s', p) == HeldAt(s, p) {
        assert Rotating(s', p) == Rotating(s, p);
      }
    }
  }

  lemma AuthorizeHistory(w: World, s: State, q: AuthorizeRequest)
    requires Up(w) && ProperRedemptions(w, s) && ProperResponses(w, s) && ProperFlight(w, s)
    ensures var s' := AfterAuthorize(w, s, q); ProperRedemptions(w, s') && ProperResponses(w, s') && ProperFlight(w, s')
  {
    hide Credential;
    hide Decide;
    hide ProperResponse;
    hide ProperRedemption;
    hide ProperPending;
    ResponsesKept(w, s, AfterAuthorize(w, s, q));
  }

  lemma AuthorizeCodes(w: World, s: State, q: AuthorizeRequest)
    requires Up(w) && CodesBound(s)
    ensures CodesBound(AfterAuthorize(w, s, q))
  {
    hide Credential;
    hide Decide;
    hide Up;
  }

  lemma TakeCodes(w: World, s: State, rid: nat, r: TokenRequest)
    requires CodesBound(s)
    ensures CodesBound(AfterTake(w, s, rid, r))
  {
    hide AuthenticateClient;
  }

  lemma SettleCodes(w: World, s: State, rid: nat, now: int)
    requires Up(w) && CodesBound(s)
    ensures CodesBound(AfterSettle(w, s, rid, now))
  {
    hide Credential;
    hide Mint;
    hide Passes;
    hide Up;
  }

  lemma AuthorizeKeeps(w: World, s: State, q: AuthorizeRequest)
    requires Up(w) && Inv(w, s)
    ensures Inv(w, AfterAuthorize(w, s, q))
  {
    hide AfterAuthorize;
    hide Rooted;
    hide SingleHolder;
    hide CodesBound;
    hide ProperLog;
    hide ProperFlight;
    hide ProperRedemptions;
    hide RedeemedInOrder;
    hide ProperResponses;
    hide Moves;
    var from, to := StepMoves(w, s, Event.Authorize(q));
    HoldersKept(s, AfterAuthorize(w, s, q), from, to);
    AuthorizeCodes(w, s, q);
    AuthorizeLog(w, s, q);
    AuthorizeInOrder(w, s, q);
    AuthorizeHistory(w, s, q);
  }

  lemma TakeFlight(w: World, s: State, rid: nat, r: TokenRequest)
    requires Up(w) && ProperFlight(w, s)
    ensures ProperFlight(w, AfterTake(w, s, rid, r))
  {
    hide ValidConfig;
    Authenticated(w.iss.cfg, w.lib, r.formID, r.formSecret, r.basic);
    hide AuthenticateClient;
  }

  /** A request took what was at `from`. */
  lemma TakenInOrder(s: State, s': State, from: Place, rid: nat)
    requires RedeemedInOrder(s) && s'.redeemed == s.redeemed && rid in s'.flight
    requires HeldAt(s, from).Some? && HeldAt(s', InFlight(rid)) == HeldAt(s, from)
    requires s'.flight[rid].Rotate? <==> from.AtRefresh?
    requires from.AtCode? || from.AtRefresh?
    requires forall p :: p != InFlight(rid) && HeldAt(s', p).Some? ==>
                           HeldAt(s', p) == HeldAt(s, p) && Rotating(s', p) == Rotating(s, p)
    ensures RedeemedInOrder(s')
  {
    hide HeldAt;
    forall p | HeldAt(s', p).Some? ensures HeldAt(s', p).value.root in s'.redeemed <==> Rotating(s', p) {
      if p == InFlight(rid) {
        assert Rotating(s, from) == from.AtRefresh?;
      }
    }
  }

  lemma TakeInOrder(w: World, s: State, rid: nat, r: TokenRequest)
    requires RedeemedInOrder(s)
    ensures RedeemedInOrder(AfterTake(w, s, rid, r))
  {
    hide AuthenticateClient;
    hide RedeemedInOrder;
    var s' := AfterTake(w, s, rid, r);
    if s' != s {
      var from := if r.grantType == "authorization_code" then AtCode(r.code) else AtRefresh(r.refreshToken);
      TakenInOrder(s, s', from, rid);
    }
  }

  lemma TakeKeeps(w: World, s: State, rid: nat, r: TokenRequest)
    requires Up(w) && Inv(w, s)
    ensures Inv(w, AfterTake(w, s, rid, r))
  {
    hide Rooted;
    hide SingleHolder;
    hide CodesBound;
    hide ProperLog;
    hide ProperFlight;
    hide ProperRedemptions;
    hide RedeemedInOrder;
    hide ProperResponses;
    hide Moves;
    hide AuthenticateClient;
    hide Up;
    var s' := AfterTake(w, s, rid, r);
    assert s'.log == s.log && s'.handed == s.handed && s'.redeemed == s.redeemed && s'.responses == s.responses;
    hide AfterTake;
    var from, to := StepMoves(w, s, Take(rid, r));
    HoldersKept(s, s', from, to);
    TakeCodes(w, s, rid, r);
    TakeFlight(w, s, rid, r);
    TakeInOrder(w, s, rid, r);
    HistoryKept(w, s, s');
  }

  // ----- settling -----

  lemma SettleFlight(w: World, s: State, rid: nat, now: int)
    requires Up(w) && ProperFlight(w, s) && ProperLog(w, s)
    ensures ProperFlight(w, AfterSettle(w, s, rid, now)) && ProperLog(w, AfterSettle(w, s, rid, now))
  {
    hide Credential;
    hide Mint;
    hide Passes;
    hide ProperGrant;
    hide ProperPending;
  }

  lemma SettleInOrder(w: World, s: State, rid: nat, now: int)
    requires Up(w) && RedeemedInOrder(s) && SingleHolder(s)
    ensures RedeemedInOrder(AfterSettle(w, s, rid, now))
  {
    hide Credential;
    hide Mint;
    hide Passes;
    hide Up;
    var s' := AfterSettle(w, s, rid, now);
    forall p | HeldAt(s', p).Some? ensures HeldAt(s', p).value.root in s'.redeemed <==> Rotating(s', p) {
      if HeldAt(s', p) == HeldAt(s, p) && p != InFlight(rid) {
        assert Rotating(s', p) == Rotating(s, p);
        var root := HeldAt(s, p).value.root;
        assert Holds(s, p, root);
        if rid in s.flight { assert Holds(s, InFlight(rid), s.flight[rid].held.root); }
      } else if rid in s.flight {
        assert HeldAt(s, InFlight(rid)) == Some(s.flight[rid].held);
      }
    }
  }

  lemma SettleRedemptions(w: World, s: State, rid: nat, now: int)
    requires Up(w) && Rooted(s) && CodesBound(s) && ProperRedemptions(w, s)
    ensures ProperRedemptions(w, AfterSettle(w, s, rid, now))
  {
    hide Credential;
    hide Mint;
    hide Up;
    if rid in s.flight {
      assert HeldAt(s, InFlight(rid)) == Some(s.flight[rid].held);
    }
  }

  lemma SettleResponses(w: World, s: State, rid: nat, now: int)
    requires Up(w) && Inv(w, s)
    ensures ProperResponses(w, AfterSettle(w, s, rid, now))
  {
    hide ValidConfig;
    hide ProperResponse;
    SettleHistory(w, s, rid, now);
    hide AfterSettle;
    var s' := AfterSettle(w, s, rid, now);
    var s1 := s'.(responses := s.responses);
    ResponsesKept(w, s, s1);
    forall i | 0 <= i < |s'.responses| ensures ProperResponse(w, s', s'.responses[i]) {
      if i < |s.responses| {
        assert ProperResponse(w, s1, s1.responses[i]);
        SameHistory(w, s1, s', s'.responses[i]);
      } else {
        SettledResponse(w, s, rid, now);
      }
    }
  }

  /** Settling adds at most one response and at most one redemption. */
  lemma SettleHistory(w: World, s: State, rid: nat, now: int)
    requires Up(w)
    ensures var s' := AfterSettle(w, s, rid, now);
            && s'.log == s.log && s.redeemed.Keys <= s'.redeemed.Keys
            && s.responses <= s'.responses && |s'.responses| <= |s.responses| + 1
  {
    hide Credential;
    hide Mint;
    hide Passes;
    hide ValidConfig;
  }

  lemma SameHistory(w: World, s: State, s': State, x: Response)
    requires Up(w) && ProperResponse(w, s, x) && s'.log == s.log && s'.redeemed == s.redeemed
    ensures ProperResponse(w, s', x)
  {
  }

  lemma SettledResponse(w: World, s: State, rid: nat, now: int)
    requires Up(w) && Rooted(s) && RedeemedInOrder(s)
    requires |AfterSettle(w, s, rid, now).responses| > |s.responses|
    ensures ProperResponse(w, AfterSettle(w, s, rid, now), AfterSettle(w, s, rid, now).responses[|s.responses|])
  {
    hide Credential;
    hide AccessClaims;
    hide IDClaims;
    hide Jwt.SignJWT;
    hide ValidConfig;
    assert HeldAt(s, InFlight(rid)) == Some(s.flight[rid].held);
  }

  lemma SettleKeeps(w: World, s: State, rid: nat, now: int)
    requires Up(w) && Inv(w, s)
    ensures Inv(w, AfterSettle(w, s, rid, now))
  {
    hide AfterSettle;
    hide Rooted;
    hide SingleHolder;
    hide CodesBound;
    hide ProperLog;
    hide ProperFlight;
    hide ProperRedemptions;
    hide RedeemedInOrder;
    hide ProperResponses;
    hide Moves;
    var s' := AfterSettle(w, s, rid, now);
    var from, to := StepMoves(w, s, Settle(rid, now));
    HoldersKept(s, s', from, to);
    SettleCodes(w, s, rid, now);
    SettleFlight(w, s, rid, now);
    SettleInOrder(w, s, rid, now);
    SettleRedemptions(w, s, rid, now);
    SettleResponses(w, s, rid, now);
  }

  // ----- over whole runs -----

  lemma StepKeeps(w: World, s: State, e: Event)
    requires Up(w) && Inv(w, s)
    ensures Inv(w, Step(w, s, e))
  {
    hide Inv;
    match e {
      case Authorize(q) => AuthorizeKeeps(w, s, q);
      case Take(rid, r) => TakeKeeps(w, s, rid, r);
      case Settle(rid, now) => SettleKeeps(w, s, rid, now);
    }
  }

  lemma StartInv(w: World)
    requires Up(w)
    ensures Inv(w, START)
  {
  }

  /** In every interleaving of concurrent handlers: each authorization has at most one
      holder; every grant in the store or in flight is one that was authorized and is
      proper; codes stay bound to their authorizations; and every token response stems from
      an authorization that its own client redeemed properly. */
  lemma {:induction false} RunInv(w: World, es: seq<Event>)
    requires Up(w)
    ensures Inv(w, Run(w, es))
  {
    hide Inv;
    if es == [] {
      StartInv(w);
    } else {
      RunInv(w, es[..|es| - 1]);
      StepKeeps(w, Run(w, es[..|es| - 1]), es[|es| - 1]);
    }
  }
}
