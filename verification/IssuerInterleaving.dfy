/**
 The issuer service with its two waiting calls split where they wait.  `createOffer` checks the session,
 waits for the signer and the trust registry, and then makes the grant; `issueCredential` spends its
 token and checks the quorum, waits for proof and signature, records the credential, waits for the
 status publisher, and ends.  All other calls run without waiting.
 */
module IssuerInterleaving {
  import opened Strings
  import opened Wrappers
  import opened IssuerService
  import opened IssuerInvariants

  /** A `createOffer` between its checks and its grant. */
  datatype OfferCall = OfferCall(
    tenantId: Text, sessionId: Text, kind: GrantKind, ttl: int, clientId: Option<Text>, redirectUri: Option<Text>)
  {
    function Owner(): Text {
      Key(tenantId, sessionId)
    }
  }

  /** An `issueCredential` waiting for proof and signature under the policy it checked, or for the publisher. */
  datatype IssueCall = Signing(owner: Text, policy: Policy) | Publishing(owner: Text)

  datatype World = World(st: Store, offers: map<nat, OfferCall>, issues: map<nat, IssueCall>)

  const ALL_WELL := KeyAnswers(true, true)

  // ------------------------------------------------------------------- steps

  /** `createOffer` up to its wait. */
  function BeginOffer(st: Store, actor: Actor, c: OfferCall, clock: Clock): (Store, bool) {
    if Refusal(actor, "offers:write").Some? || actor.tenantId != c.tenantId || c.ttl < 1000
       || c.ttl > MAX_OFFER_TTL_MS then (st, false)
    else
      var (st1, live) := LiveSession(st, c.tenantId, c.sessionId, clock(0));
      (st1, live.Ok? && live.value.phase == Approved && Authorized(st1, live.value, ALL_WELL).Ok?)
  }

  /** `createOffer` from its wait on: the session's phase is not looked at again. */
  function EndOffer(st: Store, c: OfferCall, key: KeyAnswers, draws: Draws, clock: Clock): Store {
    var secret := UniqueToken(st, draws, 0);
    if !key.active || !key.trusted || secret.Err? || c.Owner() !in st.sessions
       || (c.kind == AuthorizationCode && (c.clientId.None? || c.redirectUri.None?))
       || (c.kind == PreAuthorizedCode && (c.clientId.Some? || c.redirectUri.Some?)) then st
    else
      var grant := Grant(c.tenantId, c.sessionId, c.kind, clock(0) + c.ttl, c.clientId, c.redirectUri, None);
      WithPhase(st, c.Owner(), Offered).(grants := st.grants[secret.value := grant])
  }

  /** `issueCredential` up to its first wait; the policy it checked, when it goes on. */
  function BeginIssue(st: Store, tenantId: Text, accessToken: Text, configurationOk: bool, clock: Clock):
    (Store, Option<IssueCall>)
  {
    var (st1, token) := ConsumeAccessToken(st, accessToken, tenantId, clock(0));
    if token.Err? then (st1, None)
    else
      var (st2, live) := LiveSession(st1, token.value.tenantId, token.value.sessionId, clock(1));
      if live.Err? || live.value.phase != Offered || !configurationOk then (st2, None)
      else
        match Authorized(st2, live.value, ALL_WELL)
        case Err(_) => (st2, None)
        case Ok(policy) => (st2, Some(Signing(token.value.Owner(), policy)))
  }

  /** From the signature to the wait for the publisher. */
  function EndSigning(st: Store, owner: Text, policy: Policy, ports: Ports, draws: nat -> Draws, clock: Clock):
    (Store, bool)
  {
    var name, status, request := UniqueToken(st, draws(0), 0), UniqueToken(st, draws(1), 0),
      UniqueToken(st, draws(2), 0);
    if owner !in st.sessions || !ports.key.active || !ports.key.trusted || !ports.proofValid
       || name.Err? || status.Err? || request.Err? || !ports.formatPort then (st, false)
    else
      match ports.signing
      case Throws => (st, false)
      case Ambiguous => (WithPhase(st, owner, SigningAmbiguous), false)
      case Mismatched => (WithPhase(st, owner, SigningAmbiguous), false)
      case Signed => (Recorded(st, st.sessions[owner], CredentialId(name.value), policy, clock(0)), true)
  }

  function EndPublishing(st: Store, owner: Text, published: bool): Store {
    if published && owner in st.sessions then WithPhase(st, owner, Issued) else st
  }

  datatype Moment =
    | Whole(e: Event)
    | OfferBegins(call: nat, actor: Actor, offer: OfferCall, clock: Clock)
    | OfferEnds(call: nat, key: KeyAnswers, draws: Draws, clock: Clock)
    | IssueBegins(call: nat, tenantId: Text, accessToken: Text, configurationOk: bool, clock: Clock)
    | SigningEnds(call: nat, ports: Ports, sources: nat -> Draws, clock: Clock)
    | PublishingEnds(call: nat, published: bool)

  /** One step; a moment that does not fit the calls in flight changes nothing. */
  function Pass(w: World, m: Moment): World {
    match m
    case Whole(e) => if e.OfferEvent? || e.IssueEvent? then w else w.(st := Step(w.st, e))
    case OfferBegins(call, actor, offer, clock) =>
      if call in w.offers then w
      else
        var (st, ok) := BeginOffer(w.st, actor, offer, clock);
        World(st, if ok then w.offers[call := offer] else w.offers, w.issues)
    case OfferEnds(call, key, draws, clock) =>
      if call !in w.offers then w
      else World(EndOffer(w.st, w.offers[call], key, draws, clock), w.offers - {call}, w.issues)
    case IssueBegins(call, tenantId, accessToken, configurationOk, clock) =>
      if call in w.issues then w
      else
        var (st, begun) := BeginIssue(w.st, tenantId, accessToken, configurationOk, clock);
        World(st, w.offers, if begun.Some? then w.issues[call := begun.value] else w.issues)
    case SigningEnds(call, ports, draws, clock) =>
      if call !in w.issues || !w.issues[call].Signing? then w
      else
        var c := w.issues[call];
        var (st, recorded) := EndSigning(w.st, c.owner, c.policy, ports, draws, clock);
        World(st, w.offers, if recorded then w.issues[call := Publishing(c.owner)] else w.issues - {call})
    case PublishingEnds(call, published) =>
      if call !in w.issues || !w.issues[call].Publishing? then w
      else World(EndPublishing(w.st, w.issues[call].owner, published), w.offers, w.issues - {call})
  }

  function Start(): World {
    World(Init(), map[], map[])
  }

  function History(w: World, moments: seq<Moment>): World
    decreases |moments|
  {
    if |moments| == 0 then w else History(Pass(w, moments[0]), moments[1..])
  }

  /** The calls about to sign for a session. */
  function SigningFor(w: World, owner: Text): set<nat> {
    set c | c in w.issues && w.issues[c].Signing? && w.issues[c].owner == owner
  }

  /** All that is, or may still become, a credential of a session: unspent grants and access tokens,
      calls about to sign, credentials issued. */
  function Claims(w: World, owner: Text): nat {
    |OpenGrants(w.st, owner)| + |OpenTokens(w.st, owner)| + |SigningFor(w, owner)| + |IssuedFor(w.st, owner)|
  }

  /** The end of an offer that makes a grant. */
  predicate Grants(w: World, m: Moment) {
    m.OfferEnds? && m.call in w.offers && EndOffer(w.st, w.offers[m.call], m.key, m.draws, m.clock) != w.st
  }

  /** The check that `createOffer` omits after its wait: a grant is made only for a session without claims. */
  predicate Checked(w: World, m: Moment) {
    Grants(w, m) ==> Claims(w, w.offers[m.call].Owner()) == 0
  }

  /** A simpler check that implies it, on the session alone. */
  predicate Rechecked(w: World, m: Moment) {
    Grants(w, m) ==> w.st.sessions[w.offers[m.call].Owner()].phase == Approved
  }

  predicate AllChecked(w: World, moments: seq<Moment>)
    decreases |moments|
  {
    |moments| == 0 || (Checked(w, moments[0]) && AllChecked(Pass(w, moments[0]), moments[1..]))
  }

  predicate AllRechecked(w: World, moments: seq<Moment>)
    decreases |moments|
  {
    |moments| == 0 || (Rechecked(w, moments[0]) && AllRechecked(Pass(w, moments[0]), moments[1..]))
  }

  ghost predicate AtMostOne(w: World) {
    forall owner :: Claims(w, owner) <= 1
  }

  /** After every prefix of the run, a session has at most one claim. */
  ghost predicate AtMostOneThroughout(w: World, moments: seq<Moment>)
    decreases |moments|
  {
    AtMostOne(w) && (|moments| == 0 || AtMostOneThroughout(Pass(w, moments[0]), moments[1..]))
  }

  // ------------------------------------------------- the parts make the whole

  /** The clock as a call sees it after n readings. */
  function Later(clock: Clock, n: nat): Clock {
    (k: nat) => clock(k + n)
  }

  lemma AuthorizedInParts(st: Store, session: Session, key: KeyAnswers)
    ensures Authorized(st, session, key).Ok? <==> Authorized(st, session, ALL_WELL).Ok? && key.active && key.trusted
    ensures Authorized(st, session, key).Ok? ==> Authorized(st, session, key) == Authorized(st, session, ALL_WELL)
  {
    hide Key, TemplateKey, Approvers;
  }

  /** `createOffer` run without interruption is its two parts, one after the other. */
  lemma OfferIsItsParts(st: Store, actor: Actor, c: OfferCall, key: KeyAnswers, draws: Draws, clock: Clock)
    requires Inv(st) && actor.tenantId == c.tenantId
    ensures CreateOffer(st, actor, c.sessionId, c.kind, c.ttl, c.clientId, c.redirectUri, key, draws, clock).0
         == (var (next, ok) := BeginOffer(st, actor, c, clock);
             if ok then EndOffer(next, c, key, draws, Later(clock, 1)) else next)
  {
    hide Inv, Key, Authorized, UniqueToken, Refusal, IsId, SessionOk;
    LiveSessionKeeps(st, c.tenantId, c.sessionId, clock(0));
    var live := LiveSession(st, c.tenantId, c.sessionId, clock(0)).1;
    if live.Ok? {
      AuthorizedInParts(st, live.value, key);
      SessionIds(c.Owner(), live.value);
      RefusalIds(actor);
      if Refusal(actor, "offers:write").None? {
        KeyInjective(live.value.tenantId, live.value.sessionId, c.tenantId, c.sessionId);
      }
    }
  }

  /** A call offers for its actor's own tenant, and one that waits does not begin again. */
  lemma BeginsOnce(w: World, call: nat, actor: Actor, c: OfferCall, tenantId: Text, accessToken: Text,
                   configurationOk: bool, clock: Clock)
    ensures actor.tenantId != c.tenantId ==> BeginOffer(w.st, actor, c, clock) == (w.st, false)
    ensures call in w.offers ==> Pass(w, OfferBegins(call, actor, c, clock)) == w
    ensures call in w.issues ==> Pass(w, IssueBegins(call, tenantId, accessToken, configurationOk, clock)) == w
  {
    hide Refusal, LiveSession, Authorized, BeginIssue;
  }

  lemma RefusalIds(actor: Actor)
    ensures Refusal(actor, "offers:write").None? ==> IsId(actor.tenantId)
  {
    hide IsId;
  }

  /** `issueCredential` run without interruption is its three parts. */
  lemma IssueIsItsParts(st: Store, tenantId: Text, accessToken: Text, configurationOk: bool, ports: Ports,
                        draws: nat -> Draws, clock: Clock)
    ensures IssueCredential(st, tenantId, accessToken, configurationOk, ports, draws, clock).0
         == (var (st1, begun) := BeginIssue(st, tenantId, accessToken, configurationOk, clock);
             if begun.None? then st1
             else
               var (st2, recorded) :=
                 EndSigning(st1, begun.value.owner, begun.value.policy, ports, draws, Later(clock, 2));
               if recorded then EndPublishing(st2, begun.value.owner, ports.published) else st2)
  {
    hide Key, Authorized, UniqueToken, IsId, CredentialId;
    var (spent, token) := ConsumeAccessToken(st, accessToken, tenantId, clock(0));
    if token.Ok? && token.value.Owner() in spent.sessions {
      AuthorizedInParts(spent, spent.sessions[token.value.Owner()], ports.key);
    }
  }

  // -------------------------------------------------------------- invariants

  /** The session is past review, without a rejection. */
  predicate Decided(st: Store, owner: Text) {
    owner in st.sessions && st.sessions[owner].phase != PendingReview && NoRejection(st.sessions[owner].reviews)
  }

  /** A call about to sign has the quorum of the policy it checked. */
  predicate IssueDecided(st: Store, c: IssueCall) {
    Decided(st, c.owner) && (c.Signing? ==> Quorum(Issuance(c.owner, [], c.policy, st.sessions[c.owner].reviews)))
  }

  /** What every step keeps, whatever overlaps. */
  predicate Reviewed(w: World) {
    && ReviewsHold(w.st)
    && (forall c | c in w.offers :: Decided(w.st, w.offers[c].Owner()))
    && (forall c | c in w.issues :: IssueDecided(w.st, w.issues[c]))
  }

  ghost predicate IssueCounted(st: Store, c: IssueCall) {
    OfferMade(st, c.owner) && (c.Signing? ==> NoneLive(st, c.owner))
  }

  predicate SignsAlone(issues: map<nat, IssueCall>) {
    forall c, d | c in issues && d in issues && c != d && issues[c].Signing? && issues[d].Signing? ::
      issues[c].owner != issues[d].owner
  }

  /** What every checked step keeps. */
  ghost predicate Counted(st: Store, issues: map<nat, IssueCall>) {
    && (forall owner :: Accounted(st, owner))
    && (forall c | c in issues :: IssueCounted(st, issues[c]))
    && SignsAlone(issues)
  }

  ghost predicate Sound(w: World) {
    Reviewed(w) && Counted(w.st, w.issues)
  }

  // ------------------------------------------------- sessions left alone stay so

  /** The session's reviews stay, and it does not go back under review. */
  predicate Stays(st: Store, next: Store, owner: Text) {
    && owner in st.sessions && owner in next.sessions
    && next.sessions[owner].reviews == st.sessions[owner].reviews
    && (st.sessions[owner].phase != PendingReview ==> next.sessions[owner].phase != PendingReview)
  }

  /** And moreover an offer stays made, and nothing of the session becomes live. */
  ghost predicate Undisturbed(st: Store, next: Store, owner: Text) {
    && Stays(st, next, owner)
    && (OfferMade(st, owner) ==> OfferMade(next, owner))
    && (NoneLive(st, owner) ==> NoneLive(next, owner))
  }

  lemma SameSessionUndisturbed(st: Store, next: Store, owner: Text)
    requires owner in st.sessions && next.sessions == st.sessions
    requires SameLive(st, next, owner)
    ensures Undisturbed(st, next, owner)
  {}

  lemma BusySessionUndisturbed(st: Store, next: Store, owner: Text)
    requires owner in st.sessions && next.sessions == st.sessions && !NoneLive(st, owner)
    ensures Undisturbed(st, next, owner)
  {}

  lemma UndisturbedTwice(st: Store, middle: Store, next: Store, owner: Text)
    requires Undisturbed(st, middle, owner) && Undisturbed(middle, next, owner)
    ensures Undisturbed(st, next, owner)
  {}

  /** Changing one session's phase, or replacing a session still under review. */
  lemma SessionUndisturbed(st: Store, changed: Text, session: Session, owner: Text)
    requires owner in st.sessions
    requires changed == owner ==>
      && session.reviews == st.sessions[owner].reviews && session.phase != PendingReview
      && (OfferMade(st, owner) ==> !BeforeOffer(session.phase))
    ensures Undisturbed(st, st.(sessions := st.sessions[changed := session]), owner)
  {
    LiveReads(st, st.(sessions := st.sessions[changed := session]), owner);
  }

  lemma LiveSessionUndisturbs(st: Store, tenantId: Text, sessionId: Text, now: int, owner: Text)
    requires owner in st.sessions
    ensures Undisturbed(st, LiveSession(st, tenantId, sessionId, now).0, owner)
  {
    hide Key, IsId, Live;
    var changed := Key(tenantId, sessionId);
    if changed in st.sessions {
      SessionUndisturbed(st, changed, st.sessions[changed].(phase := Expired), owner);
    }
    SameSessionUndisturbed(st, st, owner);
  }

  lemma ConsumeGrantUndisturbs(st: Store, secret: Text, tenantId: Text, kind: GrantKind, now: int, owner: Text)
    requires owner in st.sessions
    ensures Undisturbed(st, ConsumeGrant(st, secret, tenantId, kind, now).0, owner)
  {
    SameSessionUndisturbed(st, ConsumeGrant(st, secret, tenantId, kind, now).0, owner);
  }

  /** A grant or token of another session. */
  lemma NewGrantUndisturbs(st: Store, secret: Text, grant: Grant, owner: Text)
    requires owner in st.sessions && grant.Owner() != owner && secret !in st.grants
    ensures Undisturbed(st, st.(grants := st.grants[secret := grant]), owner)
  {
    hide Grant.Owner;
    SameSessionUndisturbed(st, st.(grants := st.grants[secret := grant]), owner);
  }

  lemma NewTokenUndisturbs(st: Store, secret: Text, token: AccessToken, owner: Text)
    requires owner in st.sessions && token.Owner() != owner && secret !in st.tokens
    ensures Undisturbed(st, st.(tokens := st.tokens[secret := token]), owner)
  {
    hide AccessToken.Owner;
    SameSessionUndisturbed(st, st.(tokens := st.tokens[secret := token]), owner);
  }

  lemma AuthorizeUndisturbs(st: Store, actor: Actor, tenantId: Text, issuerState: Text, clientId: Text,
                            redirectUri: Text, draws: Draws, clock: Clock, owner: Text)
    requires owner in st.sessions
    ensures Undisturbed(st, Authorize(st, actor, tenantId, issuerState, clientId, redirectUri, draws, clock).0, owner)
  {
    hide IsId, Refusal, UniqueToken, Undisturbed, Key, NoneLive;
    SameSessionUndisturbed(st, st, owner);
    ConsumeGrantUndisturbs(st, issuerState, tenantId, AuthorizationCode, clock(0), owner);
    var (st1, consumed) := ConsumeGrant(st, issuerState, tenantId, AuthorizationCode, clock(0));
    var r := Authorize(st, actor, tenantId, issuerState, clientId, redirectUri, draws, clock);
    if !NoneLive(st, owner) {
      BusySessionUndisturbed(st, r.0, owner);
    } else if r.1.Ok? {
      NotLive(st, owner, issuerState);
      NewGrantUndisturbs(st1, r.1.value, r.0.grants[r.1.value], owner);
      UndisturbedTwice(st, st1, r.0, owner);
    }
  }

  lemma NotLive(st: Store, owner: Text, secret: Text)
    requires NoneLive(st, owner)
    ensures secret in st.grants && st.grants[secret].consumedAt.None? ==> st.grants[secret].Owner() != owner
    ensures secret in st.tokens && st.tokens[secret].consumedAt.None? ==> st.tokens[secret].Owner() != owner
  {
    hide Grant.Owner, AccessToken.Owner;
    assert !Live(st, owner, OpenGrant(secret)) && !Live(st, owner, OpenToken(secret));
  }

  lemma ExchangeUndisturbs(st: Store, tenantId: Text, code: Text, client: Option<(Text, Text)>, draws: Draws,
                           clock: Clock, owner: Text)
    requires owner in st.sessions
    ensures Undisturbed(st, ExchangeToken(st, tenantId, code, client, draws, clock).0, owner)
  {
    hide UniqueToken, Undisturbed, Key, NoneLive;
    var kind := if client.Some? then AuthorizationCode else PreAuthorizedCode;
    ConsumeGrantUndisturbs(st, code, tenantId, kind, clock(0), owner);
    var (st1, consumed) := ConsumeGrant(st, code, tenantId, kind, clock(0));
    var r := ExchangeToken(st, tenantId, code, client, draws, clock);
    if !NoneLive(st, owner) {
      BusySessionUndisturbed(st, r.0, owner);
    } else if r.1.Ok? {
      NotLive(st, owner, code);
      NewTokenUndisturbs(st1, r.1.value, r.0.tokens[r.1.value], owner);
      UndisturbedTwice(st, st1, r.0, owner);
    }
  }

  lemma RequestUndisturbs(st: Store, actor: Actor, d: Draft, portExists: bool, clock: Clock, owner: Text)
    requires owner in st.sessions
    ensures Undisturbed(st, CreateRequest(st, actor, d, portExists, clock).0, owner)
  {
    hide Key, IsId, Refusal, TemplateKey, SameTemplate, Undisturbed;
    SameSessionUndisturbed(st, st, owner);
    var session := NewSession(actor, d);
    if CreateRequest(st, actor, d, portExists, clock).1.Ok? {
      SessionUndisturbed(st, session.Owner(), session, owner);
    }
  }

  lemma ReviewUndisturbs(st: Store, actor: Actor, sessionId: Text, approve: bool, clock: Clock, owner: Text)
    requires owner in st.sessions && st.sessions[owner].phase != PendingReview
    ensures Undisturbed(st, ReviewIssuance(st, actor, sessionId, approve, clock).0, owner)
  {
    hide IsId, Refusal, Undisturbed, Key, CountApproved;
    SameSessionUndisturbed(st, st, owner);
    LiveSessionUndisturbs(st, actor.tenantId, sessionId, clock(0), owner);
    var r := ReviewIssuance(st, actor, sessionId, approve, clock);
    if r.1.Ok? {
      SessionUndisturbed(st, Key(actor.tenantId, sessionId), r.1.value, owner);
    }
  }

  lemma RegisterUndisturbs(st: Store, actor: Actor, name: Text, policy: Policy, template: Template, profile: Profile,
                           owner: Text)
    requires owner in st.sessions
    ensures Undisturbed(st, RegisterPolicy(st, actor, name, policy).0, owner)
    ensures Undisturbed(st, RegisterTemplate(st, actor, name, template).0, owner)
    ensures Undisturbed(st, RegisterIssuer(st, actor, name, profile).0, owner)
  {
    hide Undisturbed, Live;
    RegistersSame(st, actor, name, policy, template, profile);
    RegistersOnly(st, RegisterPolicy(st, actor, name, policy).0, owner);
    RegistersOnly(st, RegisterTemplate(st, actor, name, template).0, owner);
    RegistersOnly(st, RegisterIssuer(st, actor, name, profile).0, owner);
  }

  lemma RegistersOnly(st: Store, next: Store, owner: Text)
    requires owner in st.sessions && next.sessions == st.sessions && OnlyRegisters(st, next)
    ensures Undisturbed(st, next, owner)
  {
    LiveReads(st, next, owner);
    SameSessionUndisturbed(st, next, owner);
  }

  /** No call that runs without waiting disturbs a session with a call in flight. */
  lemma WholeUndisturbs(st: Store, e: Event, owner: Text)
    requires owner in st.sessions && st.sessions[owner].phase != PendingReview
    requires !e.OfferEvent? && !e.IssueEvent?
    ensures Undisturbed(st, Step(st, e), owner)
  {
    hide Undisturbed, NoneLive, RegisterPolicy, RegisterTemplate, RegisterIssuer, CreateRequest, ReviewIssuance,
      Authorize, ExchangeToken;
    match e
    case PolicyEvent(actor, id, policy) =>
      RegisterUndisturbs(st, actor, id, policy, Template(false, {}), Profile({}), owner);
    case TemplateEvent(actor, name, template) =>
      RegisterUndisturbs(st, actor, name, Policy([], 0, []), template, Profile({}), owner);
    case IssuerEvent(actor, id, profile) =>
      RegisterUndisturbs(st, actor, id, Policy([], 0, []), Template(false, {}), profile, owner);
    case RequestEvent(actor, draft, portExists, clock) => RequestUndisturbs(st, actor, draft, portExists, clock, owner);
    case ReviewEvent(actor, id, approve, clock) => ReviewUndisturbs(st, actor, id, approve, clock, owner);
    case AuthorizeEvent(actor, tenantId, issuerState, client, redirect, draws, clock) =>
      AuthorizeUndisturbs(st, actor, tenantId, issuerState, client, redirect, draws, clock, owner);
    case ExchangeEvent(tenantId, code, client, draws, clock) =>
      ExchangeUndisturbs(st, tenantId, code, client, draws, clock, owner);
  }

  // ------------------------------------------------------- the quorum is kept

  /** A step that keeps sessions and policies sound, and the reviews of every session past review. */
  predicate KeepsReviews(st: Store, next: Store) {
    && (ReviewsHold(st) ==> ReviewsHold(next))
    && (forall k | k in st.sessions && st.sessions[k].phase != PendingReview :: Stays(st, next, k))
  }

  lemma KeepsReviewsTwice(st: Store, middle: Store, next: Store)
    requires KeepsReviews(st, middle) && KeepsReviews(middle, next)
    ensures KeepsReviews(st, next)
  {
    hide ReviewsHold;
    forall k | k in st.sessions && st.sessions[k].phase != PendingReview ensures Stays(st, next, k) {
      assert Stays(st, middle, k) && Stays(middle, next, k);
    }
  }

  predicate OnlySecrets(st: Store, next: Store) {
    next.sessions == st.sessions && next.policies == st.policies && next.issued == st.issued
  }

  lemma SecretsOnly(st: Store, next: Store)
    requires OnlySecrets(st, next)
    ensures KeepsReviews(st, next)
  {
    hide SessionOk, ValidPolicy, Quorum;
  }

  lemma PolicyReviews(st: Store, actor: Actor, id: Text, policy: Policy)
    ensures KeepsReviews(st, RegisterPolicy(st, actor, id, policy).0)
  {
    hide IsId, AllIds, Key, Refusal, ValidPolicy, SessionOk, Quorum;
  }

  lemma TemplateReviews(st: Store, actor: Actor, name: Text, template: Template)
    ensures KeepsReviews(st, RegisterTemplate(st, actor, name, template).0)
  {
    hide IsId, Key, Refusal, KeepsReviews;
    SecretsOnly(st, RegisterTemplate(st, actor, name, template).0);
  }

  lemma IssuerReviews(st: Store, actor: Actor, id: Text, profile: Profile)
    ensures KeepsReviews(st, RegisterIssuer(st, actor, id, profile).0)
  {
    hide IsId, Key, Refusal, KeepsReviews;
    SecretsOnly(st, RegisterIssuer(st, actor, id, profile).0);
  }

  lemma SessionReviews(st: Store, owner: Text, session: Session)
    requires SessionOk(owner, session)
    requires owner in st.sessions && st.sessions[owner].phase != PendingReview ==>
      session.reviews == st.sessions[owner].reviews && session.phase != PendingReview
    ensures KeepsReviews(st, st.(sessions := st.sessions[owner := session]))
  {
    hide SessionOk, ValidPolicy, Quorum;
  }

  lemma MoveReviews(st: Store, owner: Text, phase: Phase)
    requires ReviewsHold(st) && owner in st.sessions && phase != PendingReview
    requires phase == Expired || NoRejection(st.sessions[owner].reviews)
    ensures KeepsReviews(st, WithPhase(st, owner, phase))
  {
    hide ValidPolicy, Quorum, KeepsReviews, IsId, DistinctReviewers;
    assert SessionOk(owner, st.sessions[owner]);
    SessionReviews(st, owner, st.sessions[owner].(phase := phase));
  }

  lemma LiveSessionReviews(st: Store, tenantId: Text, sessionId: Text, now: int)
    requires ReviewsHold(st)
    ensures KeepsReviews(st, LiveSession(st, tenantId, sessionId, now).0)
    ensures LiveSession(st, tenantId, sessionId, now).1.Ok? ==>
      var owner := Key(tenantId, sessionId);
      && LiveSession(st, tenantId, sessionId, now).0 == st && owner in st.sessions
      && LiveSession(st, tenantId, sessionId, now).1.value == st.sessions[owner] && SessionOk(owner, st.sessions[owner])
  {
    hide Key, IsId, SessionOk, KeepsReviews, Quorum, ValidPolicy;
    var owner := Key(tenantId, sessionId);
    SecretsOnly(st, st);
    if owner in st.sessions {
      MoveReviews(st, owner, Expired);
    }
  }

  lemma RequestReviews(st: Store, actor: Actor, d: Draft, portExists: bool, clock: Clock)
    ensures KeepsReviews(st, CreateRequest(st, actor, d, portExists, clock).0)
  {
    hide Key, TemplateKey, SameTemplate, KeepsReviews;
    SecretsOnly(st, st);
    var session := NewSession(actor, d);
    if CreateRequest(st, actor, d, portExists, clock).1.Ok? {
      SessionReviews(st, session.Owner(), session);
    }
  }

  lemma ReviewReviews(st: Store, actor: Actor, sessionId: Text, approve: bool, clock: Clock)
    requires ReviewsHold(st)
    ensures KeepsReviews(st, ReviewIssuance(st, actor, sessionId, approve, clock).0)
  {
    hide Key, IsId, Refusal, KeepsReviews, CountApproved, ReviewsHold;
    SecretsOnly(st, st);
    LiveSessionReviews(st, actor.tenantId, sessionId, clock(0));
    if ReviewIssuance(st, actor, sessionId, approve, clock).1.Ok? {
      SessionReviews(st, Key(actor.tenantId, sessionId), ReviewIssuance(st, actor, sessionId, approve, clock).1.value);
    }
  }

  lemma ConsumeGrantOnly(st: Store, secret: Text, tenantId: Text, kind: GrantKind, now: int)
    ensures OnlySecrets(st, ConsumeGrant(st, secret, tenantId, kind, now).0)
  {}

  lemma AuthorizeReviews(st: Store, actor: Actor, tenantId: Text, issuerState: Text, clientId: Text, redirectUri: Text,
                         draws: Draws, clock: Clock)
    ensures KeepsReviews(st, Authorize(st, actor, tenantId, issuerState, clientId, redirectUri, draws, clock).0)
  {
    hide IsId, Refusal, UniqueToken, KeepsReviews, ConsumeGrant;
    ConsumeGrantOnly(st, issuerState, tenantId, AuthorizationCode, clock(0));
    SecretsOnly(st, Authorize(st, actor, tenantId, issuerState, clientId, redirectUri, draws, clock).0);
  }

  lemma ExchangeReviews(st: Store, tenantId: Text, code: Text, client: Option<(Text, Text)>, draws: Draws, clock: Clock)
    ensures KeepsReviews(st, ExchangeToken(st, tenantId, code, client, draws, clock).0)
  {
    hide UniqueToken, KeepsReviews, ConsumeGrant;
    ConsumeGrantOnly(st, code, tenantId, if client.Some? then AuthorizationCode else PreAuthorizedCode, clock(0));
    SecretsOnly(st, ExchangeToken(st, tenantId, code, client, draws, clock).0);
  }

  lemma WholeReviews(st: Store, e: Event)
    requires ReviewsHold(st) && !e.OfferEvent? && !e.IssueEvent?
    ensures KeepsReviews(st, Step(st, e))
  {
    hide KeepsReviews, ReviewsHold, RegisterPolicy, RegisterTemplate, RegisterIssuer, CreateRequest, ReviewIssuance,
      Authorize, ExchangeToken;
    match e
    case PolicyEvent(actor, id, policy) => PolicyReviews(st, actor, id, policy);
    case TemplateEvent(actor, name, template) => TemplateReviews(st, actor, name, template);
    case IssuerEvent(actor, id, profile) => IssuerReviews(st, actor, id, profile);
    case RequestEvent(actor, draft, portExists, clock) => RequestReviews(st, actor, draft, portExists, clock);
    case ReviewEvent(actor, id, approve, clock) => ReviewReviews(st, actor, id, approve, clock);
    case AuthorizeEvent(actor, tenantId, issuerState, client, redirect, draws, clock) =>
      AuthorizeReviews(st, actor, tenantId, issuerState, client, redirect, draws, clock);
    case ExchangeEvent(tenantId, code, client, draws, clock) =>
      ExchangeReviews(st, tenantId, code, client, draws, clock);
  }

  /** Calls in flight have their sessions decided still, and calls may end. */
  lemma StillReviewed(w: World, next: World)
    requires Reviewed(w) && KeepsReviews(w.st, next.st)
    requires forall c | c in next.offers :: c in w.offers && next.offers[c] == w.offers[c]
    requires forall c | c in next.issues ::
      c in w.issues && (next.issues[c] == w.issues[c] || next.issues[c] == Publishing(w.issues[c].owner))
    ensures Reviewed(next)
  {
    hide ReviewsHold, NoRejection, OfferCall.Owner, Quorum;
    forall c | c in next.offers ensures Decided(next.st, next.offers[c].Owner()) {
      assert Decided(w.st, w.offers[c].Owner());
    }
    forall c | c in next.issues ensures IssueDecided(next.st, next.issues[c]) {
      assert IssueDecided(w.st, w.issues[c]);
    }
  }

  lemma AddOfferReviewed(w: World, call: nat, offer: OfferCall)
    requires Reviewed(w) && Decided(w.st, offer.Owner())
    ensures Reviewed(w.(offers := w.offers[call := offer]))
  {
    hide ReviewsHold, Decided, OfferCall.Owner, IssueDecided;
  }

  lemma AddIssueReviewed(w: World, call: nat, c: IssueCall)
    requires Reviewed(w) && IssueDecided(w.st, c)
    ensures Reviewed(w.(issues := w.issues[call := c]))
  {
    hide ReviewsHold, Decided, OfferCall.Owner, IssueDecided;
  }

  lemma ApprovedIsDecided(owner: Text, st: Store)
    requires owner in st.sessions && SessionOk(owner, st.sessions[owner])
    requires st.sessions[owner].phase == Approved || st.sessions[owner].phase == Offered
    ensures Decided(st, owner)
  {
    hide NoRejection, DistinctReviewers, IsId;
  }

  lemma OfferBeginsReviewed(w: World, call: nat, actor: Actor, offer: OfferCall, clock: Clock)
    requires Reviewed(w)
    ensures Reviewed(Pass(w, OfferBegins(call, actor, offer, clock)))
  {
    hide Reviewed, Decided, Authorized, Key, LiveSession, ReviewsHold, Refusal, KeepsReviews, SessionOk;
    ReviewedStore(w);
    LiveSessionReviews(w.st, offer.tenantId, offer.sessionId, clock(0));
    SecretsOnly(w.st, w.st);
    var next := LiveSession(w.st, offer.tenantId, offer.sessionId, clock(0)).0;
    StillReviewed(w, w.(st := next));
    if BeginOffer(w.st, actor, offer, clock).1 {
      ApprovedIsDecided(offer.Owner(), w.st);
      AddOfferReviewed(w, call, offer);
    }
  }

  lemma ReviewedStore(w: World)
    requires Reviewed(w)
    ensures ReviewsHold(w.st)
    ensures forall c | c in w.offers :: Decided(w.st, w.offers[c].Owner())
    ensures forall c | c in w.issues :: IssueDecided(w.st, w.issues[c])
  {
    hide ReviewsHold, Decided, IssueDecided, OfferCall.Owner;
  }

  lemma EndOfferReviews(st: Store, c: OfferCall, key: KeyAnswers, draws: Draws, clock: Clock)
    requires ReviewsHold(st) && Decided(st, c.Owner())
    ensures KeepsReviews(st, EndOffer(st, c, key, draws, clock))
  {
    hide ReviewsHold, UniqueToken, OfferCall.Owner, KeepsReviews, NoRejection;
    var next := EndOffer(st, c, key, draws, clock);
    SecretsOnly(st, st);
    MoveReviews(st, c.Owner(), Offered);
    if next != st {
      SecretsOnly(WithPhase(st, c.Owner(), Offered), next);
      KeepsReviewsTwice(st, WithPhase(st, c.Owner(), Offered), next);
    }
  }

  lemma OfferEndsReviewed(w: World, call: nat, key: KeyAnswers, draws: Draws, clock: Clock)
    requires Reviewed(w)
    ensures Reviewed(Pass(w, OfferEnds(call, key, draws, clock)))
  {
    hide Reviewed, KeepsReviews, EndOffer, ReviewsHold, Decided, IssueDecided, OfferCall.Owner;
    ReviewedStore(w);
    if call in w.offers {
      EndOfferReviews(w.st, w.offers[call], key, draws, clock);
      StillReviewed(w, Pass(w, OfferEnds(call, key, draws, clock)));
    }
  }

  lemma BeginIssueReviews(st: Store, tenantId: Text, accessToken: Text, configurationOk: bool, clock: Clock)
    requires ReviewsHold(st)
    ensures
      var (next, begun) := BeginIssue(st, tenantId, accessToken, configurationOk, clock);
      KeepsReviews(st, next) && (begun.Some? ==> begun.value.Signing? && IssueDecided(next, begun.value))
  {
    hide Authorized, Key, IsId, LiveSession, ReviewsHold, KeepsReviews, Quorum, SessionOk, Decided;
    var (st1, token) := ConsumeAccessToken(st, accessToken, tenantId, clock(0));
    SecretsOnly(st, st1);
    if token.Ok? {
      SpentReviews(st, accessToken, tenantId, clock(0));
      var (owner, live) :=
        (token.value.Owner(), LiveSession(st1, token.value.tenantId, token.value.sessionId, clock(1)));
      LiveSessionReviews(st1, token.value.tenantId, token.value.sessionId, clock(1));
      KeepsReviewsTwice(st, st1, live.0);
      if live.1.Ok? && live.1.value.phase == Offered {
        ApprovedIsDecided(owner, st1);
        if Authorized(st1, live.1.value, ALL_WELL).Ok? {
          AuthorizedQuorum(st1, owner, ALL_WELL, []);
        }
      }
    }
  }

  lemma SpentReviews(st: Store, accessToken: Text, tenantId: Text, now: int)
    requires ReviewsHold(st)
    ensures ReviewsHold(ConsumeAccessToken(st, accessToken, tenantId, now).0)
  {
    hide SessionOk, ValidPolicy, Quorum;
  }

  lemma IssueBeginsReviewed(w: World, call: nat, tenantId: Text, accessToken: Text, configurationOk: bool, clock: Clock)
    requires Reviewed(w)
    ensures Reviewed(Pass(w, IssueBegins(call, tenantId, accessToken, configurationOk, clock)))
  {
    hide Reviewed, KeepsReviews, BeginIssue, ReviewsHold, Decided, IssueDecided, OfferCall.Owner;
    ReviewedStore(w);
    BeginIssueReviews(w.st, tenantId, accessToken, configurationOk, clock);
    var (st, begun) := BeginIssue(w.st, tenantId, accessToken, configurationOk, clock);
    StillReviewed(w, w.(st := st));
    if begun.Some? {
      AddIssueReviewed(w.(st := st), call, begun.value);
    }
  }

  lemma RecordReviews(st: Store, session: Session, credentialId: Text, policy: Policy, issuedAt: int)
    requires Quorum(Issuance(session.Owner(), credentialId, policy, session.reviews))
    ensures KeepsReviews(st, Recorded(st, session, credentialId, policy, issuedAt))
  {
    hide SessionOk, ValidPolicy, Quorum, Session.Owner, Key;
  }

  lemma EndSigningReviews(st: Store, c: IssueCall, ports: Ports, draws: nat -> Draws, clock: Clock)
    requires ReviewsHold(st) && c.Signing? && IssueDecided(st, c)
    ensures KeepsReviews(st, EndSigning(st, c.owner, c.policy, ports, draws, clock).0)
  {
    hide ReviewsHold, UniqueToken, KeepsReviews, NoRejection, CredentialId, Recorded, WithPhase, ValidPolicy, Approvers,
      DistinctReviewers, Session.Owner;
    SecretsOnly(st, st);
    MoveReviews(st, c.owner, SigningAmbiguous);
    RecordReviews(st, st.sessions[c.owner], CredentialIdOf(st, draws), c.policy, clock(0));
  }

  function CredentialIdOf(st: Store, draws: nat -> Draws): Text {
    match UniqueToken(st, draws(0), 0) case Ok(token) => CredentialId(token) case Err(_) => []
  }

  lemma SigningEndsReviewed(w: World, call: nat, ports: Ports, draws: nat -> Draws, clock: Clock)
    requires Reviewed(w)
    ensures Reviewed(Pass(w, SigningEnds(call, ports, draws, clock)))
  {
    hide Reviewed, KeepsReviews, EndSigning, ReviewsHold, Decided, IssueDecided, OfferCall.Owner;
    ReviewedStore(w);
    if call in w.issues && w.issues[call].Signing? {
      EndSigningReviews(w.st, w.issues[call], ports, draws, clock);
      StillReviewed(w, Pass(w, SigningEnds(call, ports, draws, clock)));
    }
  }

  lemma PublishingEndsReviewed(w: World, call: nat, published: bool)
    requires Reviewed(w)
    ensures Reviewed(Pass(w, PublishingEnds(call, published)))
  {
    hide Reviewed, KeepsReviews, ReviewsHold, OfferCall.Owner, NoRejection, Quorum;
    ReviewedStore(w);
    if call in w.issues && w.issues[call].Publishing? {
      assert IssueDecided(w.st, w.issues[call]);
      SecretsOnly(w.st, w.st);
      MoveReviews(w.st, w.issues[call].owner, Issued);
      StillReviewed(w, Pass(w, PublishingEnds(call, published)));
    }
  }

  lemma WholeReviewed(w: World, e: Event)
    requires Reviewed(w)
    ensures Reviewed(Pass(w, Whole(e)))
  {
    hide Reviewed, KeepsReviews, ReviewsHold, Step;
    ReviewedStore(w);
    if !e.OfferEvent? && !e.IssueEvent? {
      WholeReviews(w.st, e);
      StillReviewed(w, Pass(w, Whole(e)));
    }
  }

  lemma PassReviewed(w: World, m: Moment)
    requires Reviewed(w)
    ensures Reviewed(Pass(w, m))
  {
    hide Reviewed, Pass;
    match m
    case Whole(e) => WholeReviewed(w, e);
    case OfferBegins(call, actor, offer, clock) => OfferBeginsReviewed(w, call, actor, offer, clock);
    case OfferEnds(call, key, draws, clock) => OfferEndsReviewed(w, call, key, draws, clock);
    case IssueBegins(call, tenantId, accessToken, configurationOk, clock) =>
      IssueBeginsReviewed(w, call, tenantId, accessToken, configurationOk, clock);
    case SigningEnds(call, ports, draws, clock) => SigningEndsReviewed(w, call, ports, draws, clock);
    case PublishingEnds(call, published) => PublishingEndsReviewed(w, call, published);
  }

  lemma {:induction false} HistoryReviewed(w: World, moments: seq<Moment>)
    requires Reviewed(w)
    ensures Reviewed(History(w, moments))
    decreases |moments|
  {
    hide Pass, Reviewed;
    if |moments| > 0 {
      PassReviewed(w, moments[0]);
      HistoryReviewed(Pass(w, moments[0]), moments[1..]);
    }
  }

  /** Every credential issued has its quorum, however calls interleave. */
  lemma QuorumInEveryInterleaving(moments: seq<Moment>, i: Issuance)
    requires i in History(Start(), moments).st.issued
    ensures ValidPolicy(i.policy) && 1 <= i.policy.requiredApprovals <= |Approvers(i.reviews, i.policy)|
    ensures forall r | r in i.reviews :: r.approved
  {
    hide History, SessionOk, IsId, AllIds, Approvers;
    HistoryReviewed(Start(), moments);
    assert Quorum(i);
  }

  // ------------------------------------------------ one claim a session is kept

  lemma SoundStore(w: World)
    requires Sound(w)
    ensures Inv(w.st)
  {
    hide ReviewsHold, Accounted, IssueCounted, SignsAlone;
  }

  lemma SoundIssue(w: World, call: nat)
    requires Sound(w) && call in w.issues
    ensures IssueCounted(w.st, w.issues[call]) && IssueDecided(w.st, w.issues[call])
  {
    hide ReviewsHold, Accounted, SignsAlone, IssueCounted, IssueDecided, Decided;
  }

  lemma InvAccounted(st: Store)
    requires Inv(st)
    ensures forall owner :: Accounted(st, owner)
  {
    hide Accounted, ReviewsHold;
  }

  lemma DecidedPhase(st: Store, c: IssueCall)
    requires IssueDecided(st, c)
    ensures c.owner in st.sessions && st.sessions[c.owner].phase != PendingReview
  {
    hide NoRejection, Quorum;
  }

  /** A step that takes back no offer of a call and disturbs no session of a call about to sign. */
  lemma StillCounted(st: Store, next: Store, issues: map<nat, IssueCall>)
    requires Counted(st, issues) && forall owner :: Accounted(next, owner)
    requires forall c | c in issues && issues[c].Signing? :: Undisturbed(st, next, issues[c].owner)
    requires forall c | c in issues :: OfferMade(st, issues[c].owner) ==> OfferMade(next, issues[c].owner)
    ensures Counted(next, issues)
  {
    hide Accounted, OfferMade, NoneLive, Stays, SignsAlone;
    forall c | c in issues ensures IssueCounted(next, issues[c]) {
      assert IssueCounted(st, issues[c]);
    }
  }

  /** A step that disturbs no session of a call at all. */
  lemma UndisturbedCounted(st: Store, next: Store, issues: map<nat, IssueCall>)
    requires Counted(st, issues) && Inv(next)
    requires forall c | c in issues :: Undisturbed(st, next, issues[c].owner)
    ensures Counted(next, issues)
  {
    hide Accounted, OfferMade, NoneLive, Stays, Counted, Inv;
    InvAccounted(next);
    StillCounted(st, next, issues);
  }

  /** A call that ends signing waits for the publisher or is gone. */
  lemma SignedCounted(st: Store, issues: map<nat, IssueCall>, call: nat)
    requires Counted(st, issues) && call in issues
    ensures Counted(st, issues - {call}) && Counted(st, issues[call := Publishing(issues[call].owner)])
    ensures issues[call].Signing? ==>
      && NobodySigns(issues - {call}, issues[call].owner)
      && NobodySigns(issues[call := Publishing(issues[call].owner)], issues[call].owner)
  {
    hide Accounted, OfferMade, NoneLive;
    var waiting := issues[call := Publishing(issues[call].owner)];
    assert IssueCounted(st, issues[call]);
    forall c | c in waiting ensures IssueCounted(st, waiting[c]) {
      assert c in issues && (c != call ==> waiting[c] == issues[c]);
    }
  }

  predicate NobodySigns(issues: map<nat, IssueCall>, owner: Text) {
    forall c | c in issues && issues[c].Signing? :: issues[c].owner != owner
  }

  lemma WholeCounted(w: World, e: Event)
    requires Sound(w) && !e.OfferEvent? && !e.IssueEvent?
    ensures Counted(Step(w.st, e), w.issues)
  {
    hide Inv, Step, Undisturbed, Reviewed, Counted, IssueDecided, IssueCounted;
    SoundStore(w);
    StepKeeps(w.st, e);
    forall c | c in w.issues ensures Undisturbed(w.st, Step(w.st, e), w.issues[c].owner) {
      SoundIssue(w, c);
      DecidedPhase(w.st, w.issues[c]);
      WholeUndisturbs(w.st, e, w.issues[c].owner);
    }
    UndisturbedCounted(w.st, Step(w.st, e), w.issues);
  }

  /** Marking a session expired, on the way into a call. */
  lemma LiveSessionCounted(st: Store, tenantId: Text, sessionId: Text, now: int, issues: map<nat, IssueCall>)
    requires Inv(st) && Counted(st, issues)
    ensures Counted(LiveSession(st, tenantId, sessionId, now).0, issues)
  {
    hide Inv, LiveSession, Undisturbed, Accounted, NoneLive;
    LiveSessionKeeps(st, tenantId, sessionId, now);
    var next := LiveSession(st, tenantId, sessionId, now).0;
    forall c | c in issues ensures Undisturbed(st, next, issues[c].owner) {
      assert IssueCounted(st, issues[c]);
      LiveSessionUndisturbs(st, tenantId, sessionId, now, issues[c].owner);
    }
    UndisturbedCounted(st, next, issues);
  }

  lemma OfferBeginsCounted(w: World, call: nat, actor: Actor, offer: OfferCall, clock: Clock)
    requires Sound(w)
    ensures var next := Pass(w, OfferBegins(call, actor, offer, clock)); Counted(next.st, next.issues)
  {
    hide Inv, Counted, Reviewed, Authorized, Key, LiveSession, Refusal;
    SoundStore(w);
    LiveSessionCounted(w.st, offer.tenantId, offer.sessionId, clock(0), w.issues);
  }

  /** The session of a call past review may take any phase past the offer. */
  lemma MovedSessionOk(st: Store, owner: Text, phase: Phase)
    requires Inv(st) && owner in st.sessions && NoRejection(st.sessions[owner].reviews) && !BeforeOffer(phase)
    ensures Inv(WithPhase(st, owner, phase)) && OfferMade(WithPhase(st, owner, phase), owner)
    ensures NoneLive(st, owner) ==> NoneLive(WithPhase(st, owner, phase), owner)
    ensures forall k :: OfferMade(st, k) ==> OfferMade(WithPhase(st, owner, phase), k)
  {
    hide Live, DistinctReviewers, IsId, NoRejection;
    assert SessionOk(owner, st.sessions[owner]);
    SessionKeeps(st, owner, st.sessions[owner].(phase := phase));
    LiveReads(st, WithPhase(st, owner, phase), owner);
  }

  /** Moving a session on disturbs neither it nor another. */
  lemma MovedUndisturbs(st: Store, owner: Text, phase: Phase, other: Text)
    requires owner in st.sessions && other in st.sessions && !BeforeOffer(phase)
    ensures Undisturbed(st, WithPhase(st, owner, phase), other)
  {
    hide Live, Undisturbed;
    SessionUndisturbed(st, owner, st.sessions[owner].(phase := phase), other);
  }

  /** A session moves on, whatever else is in flight. */
  lemma MoveCounted(st: Store, owner: Text, phase: Phase, issues: map<nat, IssueCall>)
    requires Inv(st) && Counted(st, issues) && Decided(st, owner) && !BeforeOffer(phase)
    ensures Counted(WithPhase(st, owner, phase), issues)
  {
    hide Inv, Undisturbed, NoRejection, NoneLive, Accounted;
    var next := WithPhase(st, owner, phase);
    MovedSessionOk(st, owner, phase);
    forall c | c in issues ensures Undisturbed(st, next, issues[c].owner) {
      assert IssueCounted(st, issues[c]);
      MovedUndisturbs(st, owner, phase, issues[c].owner);
    }
    UndisturbedCounted(st, next, issues);
  }

  /** The grant of a session without claims. */
  lemma GrantCounted(st: Store, owner: Text, secret: Text, grant: Grant, issues: map<nat, IssueCall>)
    requires Inv(st) && Counted(st, issues) && Decided(st, owner)
    requires NoneLive(st, owner) && NobodySigns(issues, owner)
    requires secret !in st.grants && grant.Owner() == owner
    ensures
      var moved := WithPhase(st, owner, Offered);
      Counted(moved.(grants := moved.grants[secret := grant]), issues)
  {
    hide Inv, Grant.Owner, Undisturbed, NoRejection, NoneLive, Accounted, WithPhase, OfferMade;
    var moved := WithPhase(st, owner, Offered);
    var next := moved.(grants := moved.grants[secret := grant]);
    MovedSessionOk(st, owner, Offered);
    MoveCounted(st, owner, Offered, issues);
    assert moved.grants == st.grants by { PhaseTouchesNoSecret(st, owner, Offered); }
    AddGrantKeeps(moved, secret, grant);
    InvAccounted(next);
    forall c | c in issues && issues[c].Signing? ensures Undisturbed(moved, next, issues[c].owner) {
      assert IssueCounted(moved, issues[c]);
      MadeOffer(moved, issues[c].owner);
      NewGrantUndisturbs(moved, secret, grant, issues[c].owner);
    }
    forall c | c in issues ensures OfferMade(moved, issues[c].owner) ==> OfferMade(next, issues[c].owner) {
      SameSessions(moved, next, issues[c].owner);
    }
    StillCounted(moved, next, issues);
  }

  lemma MadeOffer(st: Store, owner: Text)
    requires OfferMade(st, owner)
    ensures owner in st.sessions
  {}

  lemma SameSessions(st: Store, next: Store, owner: Text)
    requires next.sessions == st.sessions
    ensures OfferMade(st, owner) == OfferMade(next, owner)
  {}

  lemma NoClaims(w: World, owner: Text)
    requires Claims(w, owner) == 0
    ensures NoneLive(w.st, owner) && NobodySigns(w.issues, owner)
  {
    hide Grant.Owner, AccessToken.Owner;
    forall a ensures !Live(w.st, owner, a) {
      match a
      case OpenGrant(s) => assert s !in OpenGrants(w.st, owner);
      case OpenToken(s) => assert s !in OpenTokens(w.st, owner);
      case IssuedCredential(i) => assert i !in IssuedFor(w.st, owner);
    }
    forall c | c in w.issues && w.issues[c].Signing? ensures w.issues[c].owner != owner {
      assert c !in SigningFor(w, owner);
    }
  }

  /** What a granting offer leaves behind. */
  lemma Granted(st: Store, c: OfferCall, key: KeyAnswers, draws: Draws, clock: Clock)
    requires EndOffer(st, c, key, draws, clock) != st
    ensures c.Owner() in st.sessions && UniqueToken(st, draws, 0).Ok?
    ensures
      var secret := UniqueToken(st, draws, 0).value;
      var grant := Grant(c.tenantId, c.sessionId, c.kind, clock(0) + c.ttl, c.clientId, c.redirectUri, None);
      var moved := WithPhase(st, c.Owner(), Offered);
      && EndOffer(st, c, key, draws, clock) == moved.(grants := moved.grants[secret := grant])
      && secret !in st.grants && grant.Owner() == c.Owner()
  {
    hide UniqueToken, Key;
  }

  lemma OfferEndsCounted(w: World, call: nat, key: KeyAnswers, draws: Draws, clock: Clock)
    requires Sound(w) && Checked(w, OfferEnds(call, key, draws, clock))
    ensures var next := Pass(w, OfferEnds(call, key, draws, clock)); Counted(next.st, next.issues)
  {
    hide Inv, EndOffer, WithPhase, UniqueToken, Key, OfferCall.Owner, Grant.Owner, Counted, ReviewsHold, Decided,
      IssueDecided, NoneLive, NobodySigns, Claims;
    if call in w.offers && EndOffer(w.st, w.offers[call], key, draws, clock) != w.st {
      var c := w.offers[call];
      SoundStore(w);
      Granted(w.st, c, key, draws, clock);
      NoClaims(w, c.Owner());
      var secret := UniqueToken(w.st, draws, 0).value;
      var grant := Grant(c.tenantId, c.sessionId, c.kind, clock(0) + c.ttl, c.clientId, c.redirectUri, None);
      GrantCounted(w.st, c.Owner(), secret, grant, w.issues);
    }
  }

  lemma ConsumeTokenUndisturbs(st: Store, secret: Text, tenantId: Text, now: int, owner: Text)
    requires owner in st.sessions
    ensures Undisturbed(st, ConsumeAccessToken(st, secret, tenantId, now).0, owner)
  {
    SameSessionUndisturbed(st, ConsumeAccessToken(st, secret, tenantId, now).0, owner);
  }

  /** Spending a token: its session has no call about to sign. */
  lemma SpendCounted(st: Store, accessToken: Text, tenantId: Text, now: int, issues: map<nat, IssueCall>)
    requires Inv(st) && Counted(st, issues)
    ensures
      var (next, token) := ConsumeAccessToken(st, accessToken, tenantId, now);
      && Counted(next, issues)
      && (token.Ok? ==> NobodySigns(issues, token.value.Owner()))
  {
    hide Inv, Undisturbed, NoneLive, Accounted, Key, AccessToken.Owner;
    var (next, token) := ConsumeAccessToken(st, accessToken, tenantId, now);
    ConsumeTokenKeeps(st, accessToken, tenantId, now);
    forall c | c in issues ensures Undisturbed(st, next, issues[c].owner) {
      assert IssueCounted(st, issues[c]);
      ConsumeTokenUndisturbs(st, accessToken, tenantId, now, issues[c].owner);
    }
    UndisturbedCounted(st, next, issues);
    if token.Ok? {
      TokenWasLive(st, accessToken);
      SameOwner(st.tokens[accessToken], token.value);
      forall c | c in issues && issues[c].Signing? ensures issues[c].owner != token.value.Owner() {
        assert IssueCounted(st, issues[c]);
      }
    }
  }

  lemma SameOwner(token: AccessToken, spent: AccessToken)
    requires token.tenantId == spent.tenantId && token.sessionId == spent.sessionId
    ensures token.Owner() == spent.Owner()
  {}

  lemma TokenWasLive(st: Store, secret: Text)
    requires secret in st.tokens && st.tokens[secret].consumedAt.None?
    ensures !NoneLive(st, st.tokens[secret].Owner())
  {
    assert Live(st, st.tokens[secret].Owner(), OpenToken(secret));
  }

  lemma TokenOwner(token: AccessToken)
    ensures token.Owner() == Key(token.tenantId, token.sessionId)
  {}

  lemma AddIssueCounted(st: Store, issues: map<nat, IssueCall>, call: nat, c: IssueCall)
    requires Counted(st, issues) && NobodySigns(issues, c.owner) && IssueCounted(st, c)
    ensures Counted(st, issues[call := c])
  {
    hide Accounted, IssueCounted;
  }

  lemma OfferedIsMade(st: Store, owner: Text)
    requires owner in st.sessions && st.sessions[owner].phase == Offered
    ensures OfferMade(st, owner)
  {}

  lemma IssueBeginsCounted(w: World, call: nat, tenantId: Text, accessToken: Text, configurationOk: bool, clock: Clock)
    requires Sound(w)
    ensures var next := Pass(w, IssueBegins(call, tenantId, accessToken, configurationOk, clock));
      Counted(next.st, next.issues)
  {
    hide Inv, Counted, NoneLive, Authorized, LiveSession, ConsumeAccessToken, AccessToken.Owner, Reviewed, NobodySigns,
      OfferMade, SessionOk;
    SoundStore(w);
    var (st1, token) := ConsumeAccessToken(w.st, accessToken, tenantId, clock(0));
    ConsumeTokenKeeps(w.st, accessToken, tenantId, clock(0));
    SpendCounted(w.st, accessToken, tenantId, clock(0), w.issues);
    if token.Ok? {
      LiveSessionCounted(st1, token.value.tenantId, token.value.sessionId, clock(1), w.issues);
      LiveSessionKeeps(st1, token.value.tenantId, token.value.sessionId, clock(1));
      var begun := BeginIssue(w.st, tenantId, accessToken, configurationOk, clock).1;
      if begun.Some? {
        TokenOwner(token.value);
        OfferedIsMade(st1, token.value.Owner());
        AddIssueCounted(st1, w.issues, call, begun.value);
      }
    }
  }

  /** Recording the credential of a call that has left signing. */
  lemma RecordCounted(st: Store, owner: Text, credentialId: Text, policy: Policy, issuedAt: int,
                      issues: map<nat, IssueCall>)
    requires Inv(st) && Counted(st, issues) && owner in st.sessions && OfferMade(st, owner) && NoneLive(st, owner)
    requires NobodySigns(issues, owner) && Quorum(Issuance(owner, [], policy, st.sessions[owner].reviews))
    ensures Counted(Recorded(st, st.sessions[owner], credentialId, policy, issuedAt), issues)
  {
    hide Inv, Undisturbed, NoRejection, NoneLive, Accounted, Approvers, ValidPolicy, DistinctReviewers, Session.Owner;
    SessionIsOk(st, owner);
    var session := st.sessions[owner];
    var next := Recorded(st, session, credentialId, policy, issuedAt);
    RecordKeeps(st, session, credentialId, policy, issuedAt);
    InvAccounted(next);
    forall c | c in issues && issues[c].Signing? ensures Undisturbed(st, next, issues[c].owner) {
      assert IssueCounted(st, issues[c]);
      RecordUndisturbs(st, session, credentialId, policy, issuedAt, issues[c].owner);
    }
    StillCounted(st, next, issues);
  }

  lemma SessionIsOk(st: Store, owner: Text)
    requires Inv(st) && owner in st.sessions
    ensures st.sessions[owner].Owner() == owner
  {
    hide Live, Quorum;
    assert SessionOk(owner, st.sessions[owner]);
  }

  lemma RecordUndisturbs(st: Store, session: Session, credentialId: Text, policy: Policy, issuedAt: int, other: Text)
    requires other in st.sessions && session.Owner() != other
    ensures Undisturbed(st, Recorded(st, session, credentialId, policy, issuedAt), other)
  {
    hide Session.Owner, Key;
    var next := Recorded(st, session, credentialId, policy, issuedAt);
    forall a | Live(next, other, a) ensures Live(st, other, a) {}
    SameSessionUndisturbed(st, next, other);
  }

  lemma SigningEndsCounted(w: World, call: nat, ports: Ports, draws: nat -> Draws, clock: Clock)
    requires Sound(w)
    ensures var next := Pass(w, SigningEnds(call, ports, draws, clock)); Counted(next.st, next.issues)
  {
    hide Inv, UniqueToken, Quorum, CredentialId, Counted, Reviewed, NobodySigns, NoneLive, Recorded, WithPhase,
      NoRejection;
    if call in w.issues && w.issues[call].Signing? {
      var c := w.issues[call];
      SoundStore(w);
      SoundIssue(w, call);
      SignedCounted(w.st, w.issues, call);
      if ports.signing == Signed {
        RecordCounted(w.st, c.owner, CredentialIdOf(w.st, draws), c.policy, clock(0),
          w.issues[call := Publishing(c.owner)]);
      } else {
        MoveCounted(w.st, c.owner, SigningAmbiguous, w.issues - {call});
      }
    }
  }

  lemma PublishingEndsCounted(w: World, call: nat, published: bool)
    requires Sound(w)
    ensures var next := Pass(w, PublishingEnds(call, published)); Counted(next.st, next.issues)
  {
    hide Inv, Quorum, Counted, Reviewed, WithPhase, NoRejection, NobodySigns;
    if call in w.issues && w.issues[call].Publishing? {
      SoundStore(w);
      SoundIssue(w, call);
      SignedCounted(w.st, w.issues, call);
      MoveCounted(w.st, w.issues[call].owner, Issued, w.issues - {call});
    }
  }

  lemma PassKeeps(w: World, m: Moment)
    requires Sound(w) && Checked(w, m)
    ensures Sound(Pass(w, m))
  {
    hide Reviewed, Counted, Pass, Checked, Step;
    PassReviewed(w, m);
    match m
    case Whole(e) => WholePasses(w, e);
    case OfferBegins(call, actor, offer, clock) => OfferBeginsCounted(w, call, actor, offer, clock);
    case OfferEnds(call, key, draws, clock) => OfferEndsCounted(w, call, key, draws, clock);
    case IssueBegins(call, tenantId, accessToken, configurationOk, clock) =>
      IssueBeginsCounted(w, call, tenantId, accessToken, configurationOk, clock);
    case SigningEnds(call, ports, draws, clock) => SigningEndsCounted(w, call, ports, draws, clock);
    case PublishingEnds(call, published) => PublishingEndsCounted(w, call, published);
  }

  lemma WholePasses(w: World, e: Event)
    requires Sound(w)
    ensures var next := Pass(w, Whole(e)); Counted(next.st, next.issues)
  {
    hide Reviewed, Counted, Step;
    if !e.OfferEvent? && !e.IssueEvent? {
      WholeCounted(w, e);
    }
  }

  lemma StartSound()
    ensures Sound(Start())
  {}

  lemma SoundAtMostOne(w: World)
    requires Sound(w)
    ensures AtMostOne(w)
  {
    hide Reviewed, OfferMade;
    forall owner ensures Claims(w, owner) <= 1 {
      assert Accounted(w.st, owner);
      CountedClaims(w, owner);
    }
  }

  lemma CountedClaims(w: World, owner: Text)
    requires Accounted(w.st, owner) && Counted(w.st, w.issues)
    ensures Claims(w, owner) <= 1
  {
    hide Accounted, OfferMade, NoneLive, Grant.Owner, AccessToken.Owner;
    OneLiveCounts(w.st, owner);
    AtMostOneElement(SigningFor(w, owner));
    if c :| c in SigningFor(w, owner) {
      assert IssueCounted(w.st, w.issues[c]);
      NoneLiveCounts(w.st, owner);
    }
  }

  lemma NoneLiveCounts(st: Store, owner: Text)
    requires NoneLive(st, owner)
    ensures OpenGrants(st, owner) == {} && OpenTokens(st, owner) == {} && IssuedFor(st, owner) == {}
  {
    hide Grant.Owner, AccessToken.Owner;
    forall s ensures s !in OpenGrants(st, owner) && s !in OpenTokens(st, owner) {
      assert !Live(st, owner, OpenGrant(s)) && !Live(st, owner, OpenToken(s));
    }
    forall i: int ensures i !in IssuedFor(st, owner) {
      assert i >= 0 ==> !Live(st, owner, IssuedCredential(i));
    }
  }

  // ---------------------------------------------------------------- theorems

  lemma {:induction false} CheckedThroughout(w: World, moments: seq<Moment>)
    requires Sound(w) && AllChecked(w, moments)
    ensures AtMostOneThroughout(w, moments)
    decreases |moments|
  {
    hide Pass, Sound, Checked, AtMostOne;
    SoundAtMostOne(w);
    if |moments| > 0 {
      PassKeeps(w, moments[0]);
      CheckedThroughout(Pass(w, moments[0]), moments[1..]);
    }
  }

  /** An unchecked grant gives its session one claim more than it had. */
  lemma UncheckedClaims(w: World, m: Moment)
    requires Grants(w, m)
    ensures Claims(Pass(w, m), w.offers[m.call].Owner()) == Claims(w, w.offers[m.call].Owner()) + 1
  {
    hide EndOffer, OfferCall.Owner, Key, UniqueToken, Grant.Owner, AccessToken.Owner, SigningFor;
    var c, next := w.offers[m.call], Pass(w, m);
    Granted(w.st, c, m.key, m.draws, m.clock);
    var secret := UniqueToken(w.st, m.draws, 0).value;
    assert OpenGrants(next.st, c.Owner()) == OpenGrants(w.st, c.Owner()) + {secret};
    assert OpenTokens(next.st, c.Owner()) == OpenTokens(w.st, c.Owner());
    assert IssuedFor(next.st, c.Owner()) == IssuedFor(w.st, c.Owner());
    SameSigning(w, next, c.Owner());
  }

  lemma SameSigning(w: World, next: World, owner: Text)
    requires next.issues == w.issues
    ensures SigningFor(next, owner) == SigningFor(w, owner)
  {}

  lemma {:induction false} ThroughoutChecked(w: World, moments: seq<Moment>)
    requires AtMostOneThroughout(w, moments)
    ensures AllChecked(w, moments)
    decreases |moments|
  {
    hide Pass, Grants, Claims;
    if |moments| > 0 {
      assert AtMostOne(Pass(w, moments[0]));
      if Grants(w, moments[0]) {
        UncheckedClaims(w, moments[0]);
      }
      ThroughoutChecked(Pass(w, moments[0]), moments[1..]);
    }
  }

  /** However calls interleave, every session has at most one claim throughout if and only if no offer that
      ends makes a grant for a session with a claim, which is what `createOffer` does not check. */
  lemma OneCredentialInEveryInterleaving(moments: seq<Moment>)
    ensures AtMostOneThroughout(Start(), moments) <==> AllChecked(Start(), moments)
  {
    hide Sound, AtMostOneThroughout, AllChecked;
    StartSound();
    if AllChecked(Start(), moments) {
      CheckedThroughout(Start(), moments);
    }
    if AtMostOneThroughout(Start(), moments) {
      ThroughoutChecked(Start(), moments);
    }
  }

  /** A session still approved has no claim. */
  lemma ApprovedHasNoClaim(w: World, owner: Text)
    requires Sound(w) && owner in w.st.sessions && w.st.sessions[owner].phase == Approved
    ensures Claims(w, owner) == 0
  {
    hide Reviewed, Live, Grant.Owner, AccessToken.Owner;
    assert Accounted(w.st, owner);
    NoneLiveCounts(w.st, owner);
    forall c | c in w.issues ensures w.issues[c].owner != owner {
      assert IssueCounted(w.st, w.issues[c]);
    }
    assert SigningFor(w, owner) == {};
  }

  lemma {:induction false} RecheckedThroughout(w: World, moments: seq<Moment>)
    requires Sound(w) && AllRechecked(w, moments)
    ensures AllChecked(w, moments)
    decreases |moments|
  {
    hide Pass, Sound, Claims, EndOffer, OfferCall.Owner;
    if |moments| > 0 {
      var m := moments[0];
      if Grants(w, m) {
        Granted(w.st, w.offers[m.call], m.key, m.draws, m.clock);
        ApprovedHasNoClaim(w, w.offers[m.call].Owner());
      }
      PassKeeps(w, m);
      RecheckedThroughout(Pass(w, m), moments[1..]);
    }
  }

  /** Looking at the session's phase once more after the wait would be enough: while every offer that makes
      a grant finds its session still approved, a session has at most one claim. */
  lemma RecheckingIsEnough(moments: seq<Moment>)
    requires AllRechecked(Start(), moments)
    ensures AtMostOneThroughout(Start(), moments)
  {
    hide Sound, AtMostOneThroughout, AllChecked, AllRechecked;
    StartSound();
    RecheckedThroughout(Start(), moments);
    CheckedThroughout(Start(), moments);
  }
}
