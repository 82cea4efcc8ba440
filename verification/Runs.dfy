/** Consequences for whole runs of the protocol: what is dead stays dead, where every token
    comes from, which branches are never taken, how credentials are accounted for, and what
    /userinfo answers at the end of any refresh chain. */
module Runs {
  import opened Prelude
  import opened Bearers
  import opened Config
  import opened Issuers
  import opened Protocol
  import opened Requests
  import opened Stores
  import Jwt
  import Order
  import Scopes
  import Pkce
  import Utf8

  // ----- holders -----

  /** In any reachable state a pending code, a request in flight and a live refresh token
      never share an authorization, and neither do two of a kind. */
  lemma OneHolder(w: World, es: seq<Event>, p: Place, q: Place)
    requires Up(w) && HeldAt(Run(w, es), p).Some? && HeldAt(Run(w, es), q).Some?
    requires HeldAt(Run(w, es), p).value.root == HeldAt(Run(w, es), q).value.root
    ensures p == q
  {
    RunInv(w, es);
    var s := Run(w, es);
    assert Holds(s, p, HeldAt(s, p).value.root) && Holds(s, q, HeldAt(s, p).value.root);
  }

  /** An authorization without a holder never has one again. */
  lemma {:induction false} DeadForever(w: World, es: seq<Event>, more: seq<Event>, root: nat)
    requires Up(w) && root < |Run(w, es).log| && !Alive(Run(w, es), root)
    ensures root < |Run(w, es + more).log| && !Alive(Run(w, es + more), root)
  {
    if more == [] {
      assert es + more == es;
    } else {
      var front, last := more[..|more| - 1], more[|more| - 1];
      DeadForever(w, es, front, root);
      assert (es + more)[..|es + more| - 1] == es + front;
      var s := Run(w, es + front);
      var from, to := StepMoves(w, s, last);
      DeadKept(s, Step(w, s, last), from, to, root);
    }
  }

  // ----- history -----

  /** The history only grows, and a redemption is never overwritten: each authorization is
      redeemed at most once. */
  ghost predicate Grows(s: State, s': State) {
    && s.log <= s'.log && s.handed <= s'.handed && s.responses <= s'.responses && s.taken <= s'.taken
    && s.issued <= s'.issued
    && forall root :: root in s.redeemed ==> root in s'.redeemed && s'.redeemed[root] == s.redeemed[root]
  }

  lemma StepGrows(w: World, s: State, e: Event)
    requires Up(w) && RedeemedInOrder(s)
    ensures Grows(s, Step(w, s, e))
  {
    hide Credential;
    hide Mint;
    hide Passes;
    hide Decide;
    hide AuthenticateClient;
    hide Up;
    if e.Settle? && e.rid in s.flight {
      assert HeldAt(s, InFlight(e.rid)) == Some(s.flight[e.rid].held);
    }
  }

  lemma {:induction false} RunGrows(w: World, es: seq<Event>, more: seq<Event>)
    requires Up(w)
    ensures Grows(Run(w, es), Run(w, es + more))
  {
    hide Run;
    hide Step;
    hide Grows;
    hide RedeemedInOrder;
    hide ValidConfig;
    if more == [] {
      GrowsStill(Run(w, es));
      assert es + more == es;
    } else {
      var front, last := more[..|more| - 1], more[|more| - 1];
      RunGrows(w, es, front);
      RunStep(w, es, more);
      RunInOrder(w, es + front);
      StepGrows(w, Run(w, es + front), last);
      GrowsOn(Run(w, es), Run(w, es + front), Run(w, es + more));
    }
  }

  lemma RunStep(w: World, es: seq<Event>, more: seq<Event>)
    requires Up(w) && more != []
    ensures Run(w, es + more) == Step(w, Run(w, es + more[..|more| - 1]), more[|more| - 1])
  {
    hide Step;
    hide ValidConfig;
    assert (es + more)[..|es + more| - 1] == es + more[..|more| - 1];
  }

  lemma RunInOrder(w: World, es: seq<Event>)
    requires Up(w)
    ensures RedeemedInOrder(Run(w, es))
  {
    hide RedeemedInOrder;
    hide ValidConfig;
    RunInv(w, es);
  }

  lemma GrowsStill(s: State)
    ensures Grows(s, s)
  {
  }

  lemma GrowsOn(a: State, b: State, c: State)
    requires Grows(a, b) && Grows(b, c)
    ensures Grows(a, c)
  {
  }

  /** Every credential is a code that was handed out or the refresh token of a response. */
  predicate Counted(s: State) {
    s.issued == |s.log| + |s.responses| && |s.handed| == |s.log|
  }

  lemma CountedStart()
    ensures Counted(START)
  {
  }

  lemma StepCounted(w: World, s: State, e: Event)
    requires Up(w) && Counted(s)
    ensures Counted(Step(w, s, e))
  {
    hide Credential;
    hide Mint;
    hide Passes;
    hide Decide;
    hide AuthenticateClient;
    hide Up;
  }

  /** Every credential ever issued is accounted for like that. */
  lemma {:induction false} IssuedCount(w: World, es: seq<Event>)
    requires Up(w)
    ensures Counted(Run(w, es))
  {
    hide Up;
    hide Step;
    hide Counted;
    if es == [] {
      CountedStart();
    } else {
      IssuedCount(w, es[..|es| - 1]);
      StepCounted(w, Run(w, es[..|es| - 1]), es[|es| - 1]);
    }
  }

  /** The event number `i` of the run is the /authorize request that created authorization
      `root` and handed out its code. */
  ghost predicate AuthorizedBy(w: World, es: seq<Event>, root: nat, i: nat)
    requires Up(w)
  {
    && i < |es| && es[i].Authorize? && |Run(w, es[..i]).log| == root
    && root < |Run(w, es).log| && root < |Run(w, es).handed|
    && Decide(w.iss.cfg, es[i].q) == Issue(Run(w, es).log[root])
    && Run(w, es).handed[root]
       == Credential(w.iss.platform, w.iss.cfg.seed, Code, root + |Run(w, es[..i]).responses| + 1)
  }

  /** Every logged authorization was created by an /authorize request, which decided for
      exactly that grant; its code is the one of its issuance number. */
  lemma {:induction false} LoggedByAuthorize(w: World, es: seq<Event>, root: nat) returns (i: nat)
    requires Up(w) && root < |Run(w, es).log|
    ensures AuthorizedBy(w, es, root, i)
  {
    hide Up;
    assert es != [];
    hide Run;
    hide Step;
    hide AuthorizedBy;
    var n := |es| - 1;
    var front, last := es[..n], es[n];
    assert front + [last] == es;
    if root < |Run(w, front).log| {
      i := LoggedByAuthorize(w, front, root);
      AuthorizedStill(w, front, last, root, i);
    } else {
      i := n;
      AuthorizedNow(w, front, last, root);
    }
  }

  lemma AuthorizedStill(w: World, front: seq<Event>, last: Event, root: nat, i: nat)
    requires Up(w) && AuthorizedBy(w, front, root, i)
    ensures AuthorizedBy(w, front + [last], root, i)
  {
    hide Up;
    hide Run;
    hide Credential;
    hide Decide;
    var es := front + [last];
    RunGrowsOne(w, front, last);
    assert front[..i] == es[..i] && es[i] == front[i];
  }

  lemma AuthorizedNow(w: World, front: seq<Event>, last: Event, root: nat)
    requires Up(w) && |Run(w, front).log| <= root < |Run(w, front + [last]).log|
    ensures AuthorizedBy(w, front + [last], root, |front|)
  {
    hide Up;
    hide Run;
    hide Step;
    hide Credential;
    hide Decide;
    var es := front + [last];
    IssuedCount(w, front);
    IssuedCount(w, es);
    RunGrowsOne(w, front, last);
    LastAuthorized(w, Run(w, front), last);
    assert es[..|front|] == front && es[|front|] == last;
  }

  lemma RunGrowsOne(w: World, front: seq<Event>, last: Event)
    requires Up(w)
    ensures Grows(Run(w, front), Run(w, front + [last]))
    ensures Run(w, front + [last]) == Step(w, Run(w, front), last)
  {
    assert (front + [last])[..|front|] == front;
    RunGrows(w, front, [last]);
  }

  lemma LastAuthorized(w: World, s: State, e: Event)
    requires Up(w) && |Step(w, s, e).log| > |s.log| && |s.handed| == |s.log|
    ensures e.Authorize? && Step(w, s, e).log == s.log + [Step(w, s, e).log[|s.log|]]
    ensures Decide(w.iss.cfg, e.q) == Issue(Step(w, s, e).log[|s.log|])
    ensures Step(w, s, e).handed == s.handed + [Credential(w.iss.platform, w.iss.cfg.seed, Code, s.issued + 1)]
  {
    hide Credential;
    hide Mint;
    hide Passes;
    hide Decide;
    hide AuthenticateClient;
    hide Up;
  }

  /** An authorization is created once. */
  lemma AuthorizedOnce(w: World, es: seq<Event>, root: nat, i: nat, j: nat)
    requires Up(w) && AuthorizedBy(w, es, root, i) && AuthorizedBy(w, es, root, j)
    ensures i == j
  {
    hide Up;
    hide Grows;
    if i < j {
      LogPast(w, es, i, j);
    } else if j < i {
      LogPast(w, es, j, i);
    }
  }

  /** An /authorize request that hands out a code adds to the log for good. */
  lemma LogPast(w: World, es: seq<Event>, i: nat, j: nat)
    requires Up(w) && i < j <= |es| && es[i].Authorize? && Decide(w.iss.cfg, es[i].q).Issue?
    ensures |Run(w, es[..i]).log| < |Run(w, es[..j]).log|
  {
    hide Credential;
    hide Decide;
    hide ValidConfig;
    assert es[..i + 1][..i] == es[..i];
    assert Run(w, es[..i + 1]) == Step(w, Run(w, es[..i]), es[i]);
    RunGrows(w, es[..i + 1], es[i + 1..j]);
    assert es[..i + 1] + es[i + 1..j] == es[..j];
    hide Run;
  }

  /** A response comes after the request that created its authorization. */
  lemma AuthorizedBefore(w: World, es: seq<Event>, k: nat, i: nat)
    requires Up(w) && k < |Run(w, es).responses| && AuthorizedBy(w, es, Run(w, es).responses[k].root, i)
    ensures |Run(w, es[..i]).responses| <= k
  {
    hide Up;
    hide Run;
    hide Credential;
    hide Decide;
    var early := Run(w, es[..i]);
    assert es[..i] + es[i..] == es;
    RunGrows(w, es[..i], es[i..]);
    if k < |early.responses| {
      RunResponse(w, es[..i], k);
    }
  }

  lemma RunResponse(w: World, es: seq<Event>, k: nat)
    requires Up(w) && k < |Run(w, es).responses|
    ensures ProperResponse(w, Run(w, es), Run(w, es).responses[k])
    ensures Run(w, es).responses[k].root < |Run(w, es).log|
  {
    hide AccessClaims;
    hide IDClaims;
    hide ValidConfig;
    hide Run;
    RunInv(w, es);
  }

  /** Response `k` stems from the authorization that event `i` created: from no other event, and
      from one before the response. */
  ghost predicate StemsFrom(w: World, es: seq<Event>, k: nat, i: nat)
    requires Up(w) && k < |Run(w, es).responses|
  {
    var root := Run(w, es).responses[k].root;
    && AuthorizedBy(w, es, root, i)
    && (forall j :: AuthorizedBy(w, es, root, j) ==> j == i)
    && |Run(w, es[..i]).responses| <= k
  }

  lemma ResponseStems(w: World, es: seq<Event>, k: nat) returns (i: nat)
    requires Up(w) && k < |Run(w, es).responses|
    ensures StemsFrom(w, es, k, i)
  {
    hide Run;
    hide AuthorizedBy;
    hide ProperResponse;
    hide ValidConfig;
    var root := Run(w, es).responses[k].root;
    RunResponse(w, es, k);
    i := LoggedByAuthorize(w, es, root);
    AuthorizedBefore(w, es, k, i);
    forall j | AuthorizedBy(w, es, root, j) ensures j == i {
      AuthorizedOnce(w, es, root, i, j);
    }
  }

  /** Provenance: every token response of every run traces to exactly one earlier /authorize
      request, of a known client for a configured persona; that request's code was redeemed
      with the registered redirect URI and, if a challenge was sent, a matching verifier; and
      after any number of rotations the tokens carry its client, persona, scope and nonce. */
  lemma Provenance(w: World, es: seq<Event>, k: nat) returns (i: nat)
    requires Up(w) && k < |Run(w, es).responses|
    ensures var s := Run(w, es);
            var x := s.responses[k];
            && StemsFrom(w, es, k, i) && x.root in s.redeemed
            && var g, q, r := s.log[x.root], es[i].q, s.redeemed[x.root];
               && g == Grant(q.clientID, q.redirectURI, q.persona, q.nonce, g.scope, q.challenge, q.challengeMethod)
               && ProperGrant(w.iss.cfg, g) && x.clientID == g.clientID
               && ProperRedemption(w, g, s.handed[x.root], r) && ProperResponse(w, s, x)
  {
    hide Credential;
    hide Decide;
    hide ProperGrant;
    hide AccessClaims;
    hide IDClaims;
    hide ValidConfig;
    var s := Run(w, es);
    RunInv(w, es);
    i := ResponseStems(w, es, k);
    hide Run;
    var x := s.responses[k];
    assert ProperResponse(w, s, x);
    IssuedGrant(w.iss.cfg, es[i].q, s.log[x.root]);
  }

  // ----- branches that are never taken -----

  /** In any reachable state a request in flight has a configured persona, and a request of
      the grant's own client never redeems without a challenge unless it is authenticated:
      "persona no longer exists" and "public client redeemed a code without PKCE" cannot be
      answered. */
  lemma DefensiveBranches(w: World, es: seq<Event>, rid: nat)
    requires Up(w) && rid in Run(w, es).flight
    ensures var p := Run(w, es).flight[rid];
            && PersonaNamed(w.iss.cfg, p.held.grant.persona).Some?
            && (p.Redeem? && p.client.id == p.held.grant.clientID ==> p.held.grant.challenge != "" || p.authed)
  {
    hide ValidConfig;
    var s := Run(w, es);
    RunInv(w, es);
    var p := s.flight[rid];
    assert HeldAt(s, InFlight(rid)) == Some(p.held);
    assert ProperGrant(w.iss.cfg, s.log[p.held.root]);
    assert ProperPending(w, p);
    UniqueClient(w.iss.cfg, w.lib, p.client);
  }

  /** The token pair of a persona at a time can be signed. */
  ghost predicate Signable(w: World, g: Grant, now: int)
    requires Up(w) && PersonaNamed(w.iss.cfg, g.persona).Some?
  {
    var p := PersonaNamed(w.iss.cfg, g.persona).value;
    EntriesValid(w.iss.cfg, w.lib);
    && Jwt.SignJWT(w.iss.signer, AccessClaims(w.iss, p, g.clientID, g.scope, IssueTime(w.iss.cfg, now))).Some?
    && Jwt.SignJWT(w.iss.signer, IDClaims(w.iss, p, g.clientID, g.nonce, g.scope, IssueTime(w.iss.cfg, now))).Some?
  }

  /** A request in flight is answered with tokens exactly when it comes from the grant's
      client, presents its redirect URI and proves its challenge if there is one, and the
      signer works; otherwise the authorization is dead. */
  lemma SettleAnswers(w: World, es: seq<Event>, rid: nat, now: int)
    requires Up(w) && rid in Run(w, es).flight
    ensures var s, s' := Run(w, es), Run(w, es + [Settle(rid, now)]);
            var p := s.flight[rid];
            var g := p.held.grant;
            PersonaNamed(w.iss.cfg, g.persona).Some? &&
            if && p.client.id == g.clientID
               && (p.Redeem? ==> p.redirectURI == g.redirectURI
                                 && (g.challenge != "" ==>
                                       Pkce.Proves(w.iss.platform, g.challenge, g.challengeMethod, p.verifier)))
               && Signable(w, g, now)
            then |s'.responses| == |s.responses| + 1 && s'.responses[|s.responses|].root == p.held.root
                 && Alive(s', p.held.root)
            else s'.responses == s.responses && !Alive(s', p.held.root)
  {
    hide Credential;
    hide Mint;
    hide Signable;
    hide Rooted;
    hide ProperLog;
    hide ProperFlight;
    hide Up;
    hide Run;
    hide HeldAt;
    hide SingleHolder;
    hide CodesBound;
    hide ProperRedemptions;
    hide RedeemedInOrder;
    hide ProperResponses;
    hide Pkce.Proves;
    var s := Run(w, es);
    var p := s.flight[rid];
    DefensiveBranches(w, es, rid);
    MintWorks(w, p.held.grant, now);
    RunInv(w, es);
    RunGrowsOne(w, es, Settle(rid, now));
    FlightSettled(w, s, rid, now);
  }

  /** The authorization of a request that is answered lives on; the other one dies. */
  lemma FlightSettled(w: World, s: State, rid: nat, now: int)
    requires Up(w) && SingleHolder(s) && rid in s.flight
    ensures var s' := AfterSettle(w, s, rid, now);
            var root := s.flight[rid].held.root;
            Alive(s', root) <==> |s'.responses| != |s.responses|
  {
    hide Credential;
    hide Mint;
    hide Passes;
    hide Up;
    var s' := AfterSettle(w, s, rid, now);
    if |s'.responses| == |s.responses| {
      Dropped(s, s', rid);
    } else {
      assert Holds(s', AtRefresh(s'.responses[|s.responses|].refresh), s.flight[rid].held.root);
    }
  }

  lemma MintWorks(w: World, g: Grant, now: int)
    requires Up(w) && PersonaNamed(w.iss.cfg, g.persona).Some?
    ensures Mint(w, g, now).Some? <==> Signable(w, g, now)
  {
    hide AccessClaims;
    hide IDClaims;
    hide Jwt.SignJWT;
    hide ValidConfig;
  }

  lemma Dropped(s: State, s': State, rid: nat)
    requires SingleHolder(s) && rid in s.flight && s' == s.(flight := s.flight - {rid})
    ensures !Alive(s', s.flight[rid].held.root)
  {
    var root := s.flight[rid].held.root;
    assert Holds(s, InFlight(rid), root);
    forall p ensures !Holds(s', p, root) {
      if Holds(s', p, root) { assert Holds(s, p, root); }
    }
  }

  // ----- accounting -----

  /** The truncated hashes of the first `n` issuance numbers do not collide. */
  ghost predicate CollisionFree(w: World, n: nat)
    requires ProperPlatform(w.iss.platform)
  {
    forall k, i: nat, j: nat :: 1 <= i < j <= n ==> Named(w, k, i) != Named(w, k, j)
  }

  function Named(w: World, k: Kind, i: nat): string
    requires ProperPlatform(w.iss.platform)
  {
    Credential(w.iss.platform, w.iss.cfg.seed, k, i)
  }

  ghost predicate IsIssued(w: World, k: Kind, x: string, n: nat)
    requires ProperPlatform(w.iss.platform)
  {
    exists i: nat :: 1 <= i <= n && x == Named(w, k, i)
  }

  /** Every credential ever issued is pending, live or taken, and only one of these. */
  ghost predicate Accounted(w: World, s: State)
    requires ProperPlatform(w.iss.platform)
  {
    && (forall c :: c in s.codes ==> IsIssued(w, Code, c, s.issued))
    && (forall t :: t in s.refresh ==> IsIssued(w, Refresh, t, s.issued))
    && (forall x :: x in s.taken ==> IsIssued(w, Code, x, s.issued) || IsIssued(w, Refresh, x, s.issued))
    && Order.Distinct(s.taken)
    && (forall x :: x in s.taken ==> x !in s.codes && x !in s.refresh)
    && s.issued == |s.codes| + |s.refresh| + |s.taken|
  }

  lemma IssuedMore(w: World, k: Kind, x: string, n: nat)
    requires ProperPlatform(w.iss.platform)
    ensures IsIssued(w, k, x, n) ==> IsIssued(w, k, x, n + 1)
    ensures IsIssued(w, k, Named(w, k, n + 1), n + 1)
    ensures CollisionFree(w, n + 1) ==> !IsIssued(w, k, Named(w, k, n + 1), n)
  {
    hide Named;
    if i: nat :| 1 <= i <= n && x == Named(w, k, i) {
      assert 1 <= i <= n + 1 && x == Named(w, k, i);
    }
    assert 1 <= n + 1 <= n + 1;
  }

  lemma KindsApart(w: World, x: string, m: nat, n: nat)
    requires ProperPlatform(w.iss.platform)
    ensures !(IsIssued(w, Code, x, m) && IsIssued(w, Refresh, x, n))
  {
    hide Credential;
    if IsIssued(w, Code, x, m) && IsIssued(w, Refresh, x, n) {
      var i: nat :| 1 <= i <= m && x == Named(w, Code, i);
      var j: nat :| 1 <= j <= n && x == Named(w, Refresh, j);
      KindsDiffer(w.iss.platform, w.iss.cfg.seed, i, j);
    }
  }

  lemma AuthorizeAccounted(w: World, s: State, q: AuthorizeRequest)
    requires ProperPlatform(w.iss.platform) && Accounted(w, s)
    requires CollisionFree(w, AfterAuthorize(w, s, q).issued)
    ensures Accounted(w, AfterAuthorize(w, s, q))
  {
    hide Credential;
    hide Decide;
    hide IsIssued;
    hide CollisionFree;
    var s' := AfterAuthorize(w, s, q);
    if s'.issued == s.issued + 1 {
      var code := Named(w, Code, s.issued + 1);
      NewName(w, s, Code);
      assert s'.codes == s.codes[code := s'.codes[code]];
    }
  }

  /** A new credential has a new name, and the old names stay issued. */
  lemma NewName(w: World, s: State, k: Kind)
    requires ProperPlatform(w.iss.platform) && Accounted(w, s) && CollisionFree(w, s.issued + 1)
    ensures var x := Named(w, k, s.issued + 1);
            x !in s.codes && x !in s.refresh && x !in s.taken && IsIssued(w, k, x, s.issued + 1)
    ensures forall c :: c in s.codes ==> IsIssued(w, Code, c, s.issued + 1)
    ensures forall t :: t in s.refresh ==> IsIssued(w, Refresh, t, s.issued + 1)
    ensures forall x :: x in s.taken ==> IsIssued(w, Code, x, s.issued + 1) || IsIssued(w, Refresh, x, s.issued + 1)
  {
    hide Named;
    hide IsIssued;
    hide CollisionFree;
    forall j, y ensures IsIssued(w, j, y, s.issued) ==> IsIssued(w, j, y, s.issued + 1) {
      IssuedMore(w, j, y, s.issued);
    }
    var x := Named(w, k, s.issued + 1);
    IssuedMore(w, k, x, s.issued);
    KindsApart(w, x, s.issued + 1, s.issued);
    KindsApart(w, x, s.issued, s.issued + 1);
  }

  lemma Smaller<V>(m: map<string, V>, k: string)
    requires k in m
    ensures |m - {k}| == |m| - 1
  {
    assert m == (m - {k})[k := m[k]];
  }

  lemma CodeTaken(w: World, s: State, s': State, c: string)
    requires ProperPlatform(w.iss.platform) && Accounted(w, s) && c in s.codes
    requires s'.issued == s.issued && s'.codes == s.codes - {c} && s'.refresh == s.refresh && s'.taken == s.taken + [c]
    ensures Accounted(w, s')
  {
    hide IsIssued;
    KindsApart(w, c, s.issued, s.issued);
    Smaller(s.codes, c);
  }

  lemma RefreshTaken(w: World, s: State, s': State, t: string)
    requires ProperPlatform(w.iss.platform) && Accounted(w, s) && t in s.refresh
    requires s'.issued == s.issued && s'.codes == s.codes && s'.refresh == s.refresh - {t} && s'.taken == s.taken + [t]
    ensures Accounted(w, s')
  {
    hide IsIssued;
    KindsApart(w, t, s.issued, s.issued);
    Smaller(s.refresh, t);
  }

  lemma TakeAccounted(w: World, s: State, rid: nat, r: TokenRequest)
    requires ProperPlatform(w.iss.platform) && Accounted(w, s)
    ensures Accounted(w, AfterTake(w, s, rid, r))
  {
    hide Accounted;
    hide AuthenticateClient;
    var s' := AfterTake(w, s, rid, r);
    if s' != s {
      if r.grantType == "authorization_code" {
        CodeTaken(w, s, s', r.code);
      } else {
        RefreshTaken(w, s, s', r.refreshToken);
      }
    }
  }

  lemma RefreshAdded(w: World, s: State, s': State, h: Held)
    requires ProperPlatform(w.iss.platform) && Accounted(w, s) && CollisionFree(w, s.issued + 1)
    requires s'.issued == s.issued + 1 && s'.codes == s.codes && s'.taken == s.taken
    requires s'.refresh == s.refresh[Named(w, Refresh, s.issued + 1) := h]
    ensures Accounted(w, s')
  {
    hide Named;
    hide IsIssued;
    hide CollisionFree;
    NewName(w, s, Refresh);
  }

  lemma SameAccounts(w: World, s: State, s': State)
    requires ProperPlatform(w.iss.platform) && Accounted(w, s)
    requires s'.issued == s.issued && s'.codes == s.codes && s'.refresh == s.refresh && s'.taken == s.taken
    ensures Accounted(w, s')
  {
  }

  lemma SettleAccounted(w: World, s: State, rid: nat, now: int)
    requires Up(w) && Accounted(w, s)
    requires CollisionFree(w, AfterSettle(w, s, rid, now).issued)
    ensures Accounted(w, AfterSettle(w, s, rid, now))
  {
    hide Credential;
    hide Mint;
    hide Passes;
    hide CollisionFree;
    hide ValidConfig;
    hide Accounted;
    var s' := AfterSettle(w, s, rid, now);
    if s'.issued == s.issued + 1 {
      RefreshAdded(w, s, s', s.flight[rid].held);
    } else {
      SameAccounts(w, s, s');
    }
  }

  /** Store accounting: as long as the truncated hash does not collide, the counter equals
      the pending codes plus the live refresh tokens plus the takes so far, no credential is
      taken twice, and codes and refresh tokens never coincide. */
  lemma {:induction false} RunAccounted(w: World, es: seq<Event>)
    requires Up(w) && CollisionFree(w, Run(w, es).issued)
    ensures Accounted(w, Run(w, es)) && Run(w, es).codes.Keys !! Run(w, es).refresh.Keys
  {
    hide CollisionFree;
    hide Accounted;
    if es == [] {
      StartAccounted(w);
    } else {
      var front, last := es[..|es| - 1], es[|es| - 1];
      assert front + [last] == es;
      RunGrowsOne(w, front, last);
      FewerCollisions(w, Run(w, front).issued, Run(w, es).issued);
      RunAccounted(w, front);
      match last {
        case Authorize(q) => AuthorizeAccounted(w, Run(w, front), q);
        case Take(rid, r) => TakeAccounted(w, Run(w, front), rid, r);
        case Settle(rid, now) => SettleAccounted(w, Run(w, front), rid, now);
      }
    }
    NamesApart(w, Run(w, es));
  }

  lemma StartAccounted(w: World)
    requires ProperPlatform(w.iss.platform)
    ensures Accounted(w, START)
  {
  }

  lemma FewerCollisions(w: World, m: nat, n: nat)
    requires ProperPlatform(w.iss.platform) && m <= n && CollisionFree(w, n)
    ensures CollisionFree(w, m)
  {
    hide Named;
  }

  lemma NamesApart(w: World, s: State)
    requires ProperPlatform(w.iss.platform) && Accounted(w, s)
    ensures s.codes.Keys !! s.refresh.Keys
  {
    hide IsIssued;
    forall x | x in s.codes && x in s.refresh ensures false {
      KindsApart(w, x, s.issued, s.issued);
    }
  }

  // ----- the numbers of the codes -----

  /** When the Nth code is the one derived from N: exactly if no token response, and so no
      refresh token, came before the /authorize request that handed it out, as long as the
      truncated hash does not collide. */
  lemma NthCode(w: World, es: seq<Event>, root: nat, i: nat)
    requires Up(w) && AuthorizedBy(w, es, root, i)
    requires CollisionFree(w, root + |Run(w, es[..i]).responses| + 1)
    ensures Run(w, es).handed[root] == Named(w, Code, root + 1) <==> Run(w, es[..i]).responses == []
  {
    hide ValidConfig;
    hide Run;
    hide Credential;
    hide Decide;
    var n := root + |Run(w, es[..i]).responses| + 1;
    assert Run(w, es).handed[root] == Named(w, Code, n);
    if root + 1 < n {
      assert Named(w, Code, root + 1) != Named(w, Code, n);
    }
  }

  /** When the Nth codes of two runs are the same: exactly if the same number of token responses
      came before them. */
  lemma SameCode(w: World, es: seq<Event>, i: nat, fs: seq<Event>, j: nat, root: nat)
    requires Up(w) && AuthorizedBy(w, es, root, i) && AuthorizedBy(w, fs, root, j)
    requires CollisionFree(w, root + |Run(w, es[..i]).responses| + 1)
    requires CollisionFree(w, root + |Run(w, fs[..j]).responses| + 1)
    ensures Run(w, es).handed[root] == Run(w, fs).handed[root] <==>
            |Run(w, es[..i]).responses| == |Run(w, fs[..j]).responses|
  {
    hide ValidConfig;
    hide Run;
    hide Credential;
    hide Decide;
    var m, n := root + |Run(w, es[..i]).responses| + 1, root + |Run(w, fs[..j]).responses| + 1;
    assert Run(w, es).handed[root] == Named(w, Code, m) && Run(w, fs).handed[root] == Named(w, Code, n);
    assert m < n ==> Named(w, Code, m) != Named(w, Code, n);
    assert n < m ==> Named(w, Code, n) != Named(w, Code, m);
  }

  // ----- end to end -----

  /** What a proper response's tokens get from /userinfo. */
  lemma ResponseUserinfo(w: World, s: State, x: Response, now: int)
    requires Up(w) && ProperResponse(w, s, x) && ProperGrant(w.iss.cfg, s.log[x.root])
    requires Int64(Unix(x.at + w.iss.cfg.ttl)) && Unix(x.at + w.iss.cfg.ttl) >= Unix(IssueTime(w.iss.cfg, now))
    ensures (var g := s.log[x.root];
            var p := PersonaNamed(w.iss.cfg, g.persona).value;
            EntriesValid(w.iss.cfg, w.lib);
            && (UserinfoResult(w.iss, BEARER + x.access, now) == Ok(UserinfoClaims(w.iss, p, g.scope))
                <==> Utf8.Valid(w.iss.cfg.issuer) && Utf8.Valid(p.subject))
            && BearerToken(w.iss, BEARER + x.id, now).Err?)
  {
    hide AccessClaims;
    hide IDClaims;
    hide UserinfoClaims;
    hide BearerToken;
    hide Jwt.SignJWT;
    hide UserinfoResult;
    hide ValidConfig;
    hide Jwt.Sound;
    hide Utf8.Valid;
    EntriesValid(w.iss.cfg, w.lib);
    var g := s.log[x.root];
    var p := PersonaNamed(w.iss.cfg, g.persona).value;
    UserinfoOfAccess(w.iss, w.lib, p, g.clientID, g.scope, x.at, now);
    IDTokenRefused(w.iss, p, g.clientID, g.nonce, g.scope, x.at, now);
  }

  /** Closing the loop: the access token of any token response of any run, after any number
      of rotations, gets from /userinfo, until it expires, exactly the claims of the persona
      and the scopes that were authorized, provided the issuer and the subject are valid
      UTF-8 (and only then); and its ID token is always refused there. */
  lemma EndToEnd(w: World, es: seq<Event>, k: nat, now: int) returns (i: nat)
    requires Up(w) && k < |Run(w, es).responses|
    requires var exp := Unix(Run(w, es).responses[k].at + w.iss.cfg.ttl);
             Int64(exp) && exp >= Unix(IssueTime(w.iss.cfg, now))
    ensures (var s := Run(w, es);
            var x := s.responses[k];
            && StemsFrom(w, es, k, i)
            && PersonaNamed(w.iss.cfg, es[i].q.persona).Some?
            && var p := PersonaNamed(w.iss.cfg, es[i].q.persona).value;
               EntriesValid(w.iss.cfg, w.lib);
               && (UserinfoResult(w.iss, BEARER + x.access, now)
                   == Ok(UserinfoClaims(w.iss, p, Scopes.Canonical(es[i].q.scope)))
                   <==> Utf8.Valid(w.iss.cfg.issuer) && Utf8.Valid(p.subject))
               && BearerToken(w.iss, BEARER + x.id, now).Err?)
  {
    hide Decide;
    hide Credential;
    hide UserinfoClaims;
    hide BearerToken;
    hide UserinfoResult;
    hide ProperResponse;
    hide ProperGrant;
    hide Up;
    var s := Run(w, es);
    RunInv(w, es);
    var x := s.responses[k];
    assert ProperResponse(w, s, x);
    ResponseRooted(w, s, x);
    i := ResponseStems(w, es, k);
    IssuedGrant(w.iss.cfg, es[i].q, s.log[x.root]);
    ResponseUserinfo(w, s, x, now);
  }

  lemma ResponseRooted(w: World, s: State, x: Response)
    requires Up(w) && ProperResponse(w, s, x)
    ensures x.root < |s.log| && PersonaNamed(w.iss.cfg, s.log[x.root].persona).Some?
  {
  }
}
