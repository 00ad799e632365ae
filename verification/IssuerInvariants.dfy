/** What every run of the issuer service keeps: one live secret or credential a session, and the review quorum. */
module IssuerInvariants {
  import opened Strings
  import opened Wrappers
  import opened IssuerService

  /** Something that is, or may still become, a credential of a session. */
  datatype Artifact = OpenGrant(secret: Text) | OpenToken(secret: Text) | IssuedCredential(index: nat)

  predicate Live(st: Store, owner: Text, a: Artifact) {
    match a
    case OpenGrant(s) => s in st.grants && st.grants[s].Owner() == owner && st.grants[s].consumedAt.None?
    case OpenToken(s) => s in st.tokens && st.tokens[s].Owner() == owner && st.tokens[s].consumedAt.None?
    case IssuedCredential(i) => i < |st.issued| && st.issued[i].owner == owner
  }

  predicate NoRejection(reviews: seq<Review>) {
    forall r | r in reviews :: r.approved
  }

  predicate DistinctReviewers(reviews: seq<Review>) {
    forall i, j | 0 <= i < j < |reviews| :: reviews[i].reviewerId != reviews[j].reviewerId
  }

  predicate BeforeOffer(phase: Phase) {
    phase == PendingReview || phase == Approved
  }

  predicate SessionOk(owner: Text, s: Session) {
    && s.Owner() == owner && IsId(s.tenantId) && IsId(s.sessionId)
    && DistinctReviewers(s.reviews)
    && (NoRejection(s.reviews) || s.phase == Rejected || s.phase == Expired)
  }

  /** A session past its offer. */
  predicate OfferMade(st: Store, owner: Text) {
    owner in st.sessions && !BeforeOffer(st.sessions[owner].phase)
  }

  /** A quorum of distinct authorised reviewers approved, and nobody rejected. */
  predicate Quorum(i: Issuance) {
    && ValidPolicy(i.policy)
    && |Approvers(i.reviews, i.policy)| >= i.policy.requiredApprovals
    && NoRejection(i.reviews) && DistinctReviewers(i.reviews)
  }

  ghost predicate OneLive(st: Store, owner: Text) {
    forall a, b | Live(st, owner, a) && Live(st, owner, b) :: a == b
  }

  ghost predicate NoneLive(st: Store, owner: Text) {
    forall a :: !Live(st, owner, a)
  }

  ghost predicate Accounted(st: Store, owner: Text) {
    OneLive(st, owner) && (NoneLive(st, owner) || OfferMade(st, owner))
  }

  /** Sessions and policies are sound, and every credential issued has its quorum. */
  predicate ReviewsHold(st: Store) {
    && (forall k | k in st.sessions :: SessionOk(k, st.sessions[k]))
    && (forall k | k in st.policies :: ValidPolicy(st.policies[k]))
    && (forall i | i in st.issued :: Quorum(i))
  }

  ghost predicate Inv(st: Store) {
    ReviewsHold(st) && forall owner :: Accounted(st, owner)
  }

  // ------------------------------------------------------------ small changes

  /** The grants, access tokens and issued credentials of two stores agree for an owner. */
  ghost predicate SameLive(st: Store, next: Store, owner: Text) {
    forall a :: Live(next, owner, a) ==> Live(st, owner, a)
  }

  lemma FewerLive(st: Store, next: Store, owner: Text)
    requires Accounted(st, owner) && SameLive(st, next, owner)
    requires OfferMade(st, owner) ==> OfferMade(next, owner)
    ensures Accounted(next, owner)
  {}

  /** Changes that touch no secret and no session. */
  lemma PolicyKeeps(st: Store, next: Store)
    requires Inv(st) && next.sessions == st.sessions && next.grants == st.grants && next.tokens == st.tokens
    requires next.issued == st.issued
    requires forall k | k in next.policies :: ValidPolicy(next.policies[k])
    ensures Inv(next)
  {
    hide Live, OfferMade;
    forall owner ensures Accounted(next, owner) {
      assert Accounted(st, owner);
      SameStores(st, next, owner);
    }
  }

  lemma SameStores(st: Store, next: Store, owner: Text)
    requires next.sessions == st.sessions && next.grants == st.grants && next.tokens == st.tokens
      && next.issued == st.issued
    requires Accounted(st, owner)
    ensures Accounted(next, owner)
  {
    assert SameLive(st, next, owner);
  }

  /** Replacing or adding a session. */
  lemma SessionKeeps(st: Store, owner: Text, session: Session)
    requires Inv(st) && SessionOk(owner, session)
    requires OfferMade(st, owner) ==> !BeforeOffer(session.phase)
    ensures Inv(st.(sessions := st.sessions[owner := session]))
  {
    hide Live, SessionOk;
    var next := st.(sessions := st.sessions[owner := session]);
    forall k ensures Accounted(next, k) {
      assert Accounted(st, k);
      assert SameLive(st, next, k) by {
        LiveReads(st, next, k);
      }
      FewerLive(st, next, k);
    }
  }

  lemma LiveReads(st: Store, next: Store, owner: Text)
    requires next.grants == st.grants && next.tokens == st.tokens && next.issued == st.issued
    ensures SameLive(st, next, owner)
  {}

  lemma PhaseKeeps(st: Store, owner: Text, phase: Phase)
    requires Inv(st) && owner in st.sessions && !BeforeOffer(phase)
    requires phase == Expired || (st.sessions[owner].phase != Rejected && st.sessions[owner].phase != Expired)
    ensures Inv(WithPhase(st, owner, phase))
  {
    hide Live, DistinctReviewers, NoRejection;
    assert SessionOk(owner, st.sessions[owner]);
    SessionKeeps(st, owner, st.sessions[owner].(phase := phase));
  }

  /** Consuming a grant leaves its session with nothing live. */
  lemma ConsumeGrantKeeps(st: Store, secret: Text, tenantId: Text, kind: GrantKind, now: int)
    requires Inv(st)
    ensures Inv(ConsumeGrant(st, secret, tenantId, kind, now).0)
    ensures ConsumeGrant(st, secret, tenantId, kind, now).1.Ok? ==>
      var (next, r) := ConsumeGrant(st, secret, tenantId, kind, now);
      && r.value.Owner() == Key(tenantId, r.value.sessionId)
      && NoneLive(next, r.value.Owner()) && OfferMade(next, r.value.Owner())
  {
    hide SessionOk, Quorum, Key, ValidPolicy, AccessToken.Owner;
    var (next, r) := ConsumeGrant(st, secret, tenantId, kind, now);
    if next.grants != st.grants {
      var owner := st.grants[secret].Owner();
      assert Live(st, owner, OpenGrant(secret));
      assert Accounted(st, owner);
      forall k ensures Accounted(next, k) {
        assert Accounted(st, k);
        assert SameLive(st, next, k);
        FewerLive(st, next, k);
      }
      forall a ensures !Live(next, owner, a) {
        assert Live(next, owner, a) ==> Live(st, owner, a);
      }
    }
  }

  lemma ConsumeTokenKeeps(st: Store, secret: Text, tenantId: Text, now: int)
    requires Inv(st)
    ensures Inv(ConsumeAccessToken(st, secret, tenantId, now).0)
    ensures ConsumeAccessToken(st, secret, tenantId, now).1.Ok? ==>
      var (next, r) := ConsumeAccessToken(st, secret, tenantId, now);
      NoneLive(next, r.value.Owner()) && OfferMade(next, r.value.Owner())
  {
    hide SessionOk, Quorum, Key, ValidPolicy, Grant.Owner;
    var (next, r) := ConsumeAccessToken(st, secret, tenantId, now);
    if next.tokens != st.tokens {
      var owner := st.tokens[secret].Owner();
      assert Live(st, owner, OpenToken(secret));
      assert Accounted(st, owner);
      forall k ensures Accounted(next, k) {
        assert Accounted(st, k);
        assert SameLive(st, next, k);
        FewerLive(st, next, k);
      }
      forall a ensures !Live(next, owner, a) {
        assert Live(next, owner, a) ==> Live(st, owner, a);
      }
    }
  }

  /** One thing becomes live for an owner who had nothing. */
  lemma OneMoreLive(st: Store, next: Store, owner: Text, added: Artifact)
    requires forall k :: Accounted(st, k)
    requires NoneLive(st, owner) && OfferMade(st, owner) && next.sessions == st.sessions
    requires forall k, a | Live(next, k, a) :: Live(st, k, a) || (k == owner && a == added)
    ensures forall k :: Accounted(next, k)
  {
    hide Live;
    forall k ensures Accounted(next, k) {
      assert Accounted(st, k);
      if k != owner {
        assert SameLive(st, next, k);
        FewerLive(st, next, k);
      } else {
        forall a | Live(next, k, a) ensures a == added {
          assert !Live(st, k, a);
        }
      }
    }
  }

  lemma AddGrantKeeps(st: Store, secret: Text, grant: Grant)
    requires Inv(st) && secret !in st.grants
    requires NoneLive(st, grant.Owner()) && OfferMade(st, grant.Owner())
    ensures Inv(st.(grants := st.grants[secret := grant]))
  {
    hide SessionOk, Quorum, OfferMade;
    OneMoreLive(st, st.(grants := st.grants[secret := grant]), grant.Owner(), OpenGrant(secret));
  }

  lemma AddTokenKeeps(st: Store, secret: Text, token: AccessToken)
    requires Inv(st) && secret !in st.tokens
    requires NoneLive(st, token.Owner()) && OfferMade(st, token.Owner())
    ensures Inv(st.(tokens := st.tokens[secret := token]))
  {
    hide SessionOk, Quorum, OfferMade;
    OneMoreLive(st, st.(tokens := st.tokens[secret := token]), token.Owner(), OpenToken(secret));
  }

  lemma RecordKeeps(st: Store, session: Session, credentialId: Text, policy: Policy, issuedAt: int)
    requires Inv(st) && NoneLive(st, session.Owner()) && OfferMade(st, session.Owner())
    requires Quorum(Issuance(session.Owner(), credentialId, policy, session.reviews))
    ensures Inv(Recorded(st, session, credentialId, policy, issuedAt))
  {
    hide SessionOk, Quorum, OfferMade;
    OneMoreLive(st, Recorded(st, session, credentialId, policy, issuedAt), session.Owner(),
      IssuedCredential(|st.issued|));
  }

  // -------------------------------------------------------------- operations

  lemma LiveSessionKeeps(st: Store, tenantId: Text, sessionId: Text, now: int)
    requires Inv(st)
    ensures Inv(LiveSession(st, tenantId, sessionId, now).0)
    ensures LiveSession(st, tenantId, sessionId, now).1.Ok? ==>
      var owner := Key(tenantId, sessionId);
      && LiveSession(st, tenantId, sessionId, now).0 == st && owner in st.sessions
      && LiveSession(st, tenantId, sessionId, now).1.value == st.sessions[owner] && SessionOk(owner, st.sessions[owner])
  {
    hide Live, SessionOk, Key, IsId;
    var owner := Key(tenantId, sessionId);
    if owner in st.sessions && st.sessions[owner].expiresAt <= now {
      PhaseKeeps(st, owner, Expired);
    }
  }

  lemma CreateRequestKeeps(st: Store, actor: Actor, d: Draft, portExists: bool, clock: Clock)
    requires Inv(st)
    ensures Inv(CreateRequest(st, actor, d, portExists, clock).0)
  {
    hide Live, Inv;
    var session := NewSession(actor, d);
    if CreateRequest(st, actor, d, portExists, clock).1.Ok? {
      SessionKeeps(st, session.Owner(), session);
    }
  }

  lemma ReviewKeeps(st: Store, actor: Actor, sessionId: Text, approve: bool, clock: Clock)
    requires Inv(st)
    ensures Inv(ReviewIssuance(st, actor, sessionId, approve, clock).0)
  {
    hide Live, Inv, CountApproved;
    var owner := Key(actor.tenantId, sessionId);
    LiveSessionKeeps(st, actor.tenantId, sessionId, clock(0));
    if ReviewIssuance(st, actor, sessionId, approve, clock).1.Ok? {
      SessionKeeps(st, owner, ReviewIssuance(st, actor, sessionId, approve, clock).1.value);
    }
  }

  lemma CreateOfferKeeps(st: Store, actor: Actor, sessionId: Text, kind: GrantKind, ttl: int, clientId: Option<Text>,
                         redirectUri: Option<Text>, key: KeyAnswers, draws: Draws, clock: Clock)
    requires Inv(st)
    ensures Inv(CreateOffer(st, actor, sessionId, kind, ttl, clientId, redirectUri, key, draws, clock).0)
  {
    hide Live, SessionOk, Quorum, Authorized, UniqueToken, Key, IsId;
    var owner := Key(actor.tenantId, sessionId);
    LiveSessionKeeps(st, actor.tenantId, sessionId, clock(0));
    var r := CreateOffer(st, actor, sessionId, kind, ttl, clientId, redirectUri, key, draws, clock);
    if r.1.Ok? {
      assert Accounted(st, owner);
      assert SessionOk(owner, st.sessions[owner]);
      SessionIds(owner, st.sessions[owner]);
      KeyInjective(st.sessions[owner].tenantId, st.sessions[owner].sessionId, actor.tenantId, sessionId);
      var offered := WithPhase(st, owner, Offered);
      PhaseKeeps(st, owner, Offered);
      assert NoneLive(offered, owner) by {
        LiveReads(st, offered, owner);
      }
      var grant := r.0.grants[r.1.value];
      assert r.0 == offered.(grants := offered.grants[r.1.value := grant]);
      AddGrantKeeps(offered, r.1.value, grant);
    }
  }

  lemma OwnerOf(owner: Text, s: Session)
    requires SessionOk(owner, s)
    ensures Key(s.tenantId, s.sessionId) == owner
  {}

  lemma SessionIds(owner: Text, s: Session)
    requires SessionOk(owner, s)
    ensures Key(s.tenantId, s.sessionId) == owner && IsId(s.tenantId)
  {}

  lemma KeyInjective(tenant: Text, entity: Text, otherTenant: Text, other: Text)
    requires IsId(tenant) && IsId(otherTenant)
    ensures Key(tenant, entity) == Key(otherTenant, other) <==> tenant == otherTenant && entity == other
  {
    Join2Injective(tenant, entity, otherTenant, other);
  }

  lemma AuthorizeKeeps(st: Store, actor: Actor, tenantId: Text, issuerState: Text, clientId: Text, redirectUri: Text,
                       draws: Draws, clock: Clock)
    requires Inv(st)
    ensures Inv(Authorize(st, actor, tenantId, issuerState, clientId, redirectUri, draws, clock).0)
  {
    hide Inv, ConsumeGrant, UniqueToken, NoneLive, OfferMade;
    ConsumeGrantKeeps(st, issuerState, tenantId, AuthorizationCode, clock(0));
    var st1 := ConsumeGrant(st, issuerState, tenantId, AuthorizationCode, clock(0)).0;
    var r := Authorize(st, actor, tenantId, issuerState, clientId, redirectUri, draws, clock);
    if r.1.Ok? {
      AddGrantKeeps(st1, r.1.value, r.0.grants[r.1.value]);
    }
  }

  lemma ExchangeKeeps(st: Store, tenantId: Text, code: Text, client: Option<(Text, Text)>, draws: Draws, clock: Clock)
    requires Inv(st)
    ensures Inv(ExchangeToken(st, tenantId, code, client, draws, clock).0)
  {
    hide Inv, ConsumeGrant, UniqueToken, NoneLive, OfferMade;
    var kind := if client.Some? then AuthorizationCode else PreAuthorizedCode;
    ConsumeGrantKeeps(st, code, tenantId, kind, clock(0));
    var st1 := ConsumeGrant(st, code, tenantId, kind, clock(0)).0;
    var r := ExchangeToken(st, tenantId, code, client, draws, clock);
    if r.1.Ok? {
      AddTokenKeeps(st1, r.1.value, r.0.tokens[r.1.value]);
    }
  }

  /** What the last check before issuing guarantees. */
  lemma AuthorizedQuorum(st: Store, owner: Text, key: KeyAnswers, credentialId: Text)
    requires ReviewsHold(st) && owner in st.sessions && st.sessions[owner].phase == Offered
    requires Authorized(st, st.sessions[owner], key).Ok?
    ensures Quorum(Issuance(owner, credentialId, Authorized(st, st.sessions[owner], key).value,
      st.sessions[owner].reviews))
  {
    hide TemplateKey, IsId, AllIds;
    assert SessionOk(owner, st.sessions[owner]);
  }

  lemma InvReviews(st: Store)
    requires Inv(st)
    ensures ReviewsHold(st)
  {}

  lemma IssueKeeps(st: Store, token: AccessToken, configurationOk: bool, ports: Ports, draws: nat -> Draws,
                   clock: Clock)
    requires Inv(st) && NoneLive(st, token.Owner()) && OfferMade(st, token.Owner())
    ensures Inv(IssueWith(st, token, configurationOk, ports, draws, clock).0)
  {
    hide Inv, ReviewsHold, UniqueToken, NoneLive, Quorum, Authorized, CredentialId, SessionOk, Key;
    var owner := token.Owner();
    LiveSessionKeeps(st, token.tenantId, token.sessionId, clock(1));
    var live := LiveSession(st, token.tenantId, token.sessionId, clock(1)).1;
    if live.Ok? && live.value.phase == Offered {
      PhaseKeeps(st, owner, SigningAmbiguous);
      OwnerOf(owner, live.value);
      if Authorized(st, live.value, ports.key).Ok? && UniqueToken(st, draws(0), 0).Ok? {
        var policy := Authorized(st, live.value, ports.key).value;
        var name := CredentialId(UniqueToken(st, draws(0), 0).value);
        InvReviews(st);
        AuthorizedQuorum(st, owner, ports.key, name);
        RecordKeeps(st, live.value, name, policy, clock(2));
        PhaseKeeps(Recorded(st, live.value, name, policy, clock(2)), owner, Issued);
      }
    }
  }

  lemma IssueCredentialKeeps(st: Store, tenantId: Text, accessToken: Text, configurationOk: bool, ports: Ports,
                             draws: nat -> Draws, clock: Clock)
    requires Inv(st)
    ensures Inv(IssueCredential(st, tenantId, accessToken, configurationOk, ports, draws, clock).0)
  {
    hide Inv, IssueWith, ConsumeAccessToken, NoneLive, OfferMade;
    ConsumeTokenKeeps(st, accessToken, tenantId, clock(0));
    var (st1, consumed) := ConsumeAccessToken(st, accessToken, tenantId, clock(0));
    if consumed.Ok? {
      IssueKeeps(st1, consumed.value, configurationOk, ports, draws, clock);
    }
  }

  lemma StepKeeps(st: Store, e: Event)
    requires Inv(st)
    ensures Inv(Step(st, e))
  {
    hide Inv, RegisterPolicy, RegisterTemplate, RegisterIssuer, CreateRequest, ReviewIssuance, CreateOffer,
      Authorize, ExchangeToken, IssueCredential;
    match e
    case PolicyEvent(actor, id, policy) => RegisterPolicyKeeps(st, actor, id, policy);
    case TemplateEvent(actor, name, template) => RegisterTemplateKeeps(st, actor, name, template);
    case IssuerEvent(actor, id, profile) => RegisterIssuerKeeps(st, actor, id, profile);
    case RequestEvent(actor, draft, portExists, clock) => CreateRequestKeeps(st, actor, draft, portExists, clock);
    case ReviewEvent(actor, id, approve, clock) => ReviewKeeps(st, actor, id, approve, clock);
    case OfferEvent(actor, id, kind, ttl, clientId, redirectUri, key, draws, clock) =>
      CreateOfferKeeps(st, actor, id, kind, ttl, clientId, redirectUri, key, draws, clock);
    case AuthorizeEvent(actor, tenantId, issuerState, client, redirect, draws, clock) =>
      AuthorizeKeeps(st, actor, tenantId, issuerState, client, redirect, draws, clock);
    case ExchangeEvent(tenantId, code, client, draws, clock) => ExchangeKeeps(st, tenantId, code, client, draws, clock);
    case IssueEvent(tenantId, accessToken, configurationOk, ports, draws, clock) =>
      IssueCredentialKeeps(st, tenantId, accessToken, configurationOk, ports, draws, clock);
  }

  lemma PoliciesValid(st: Store)
    requires Inv(st)
    ensures forall k | k in st.policies :: ValidPolicy(st.policies[k])
  {}

  lemma RegisterPolicyKeeps(st: Store, actor: Actor, policyId: Text, policy: Policy)
    requires Inv(st)
    ensures Inv(RegisterPolicy(st, actor, policyId, policy).0)
  {
    hide Inv, ValidPolicy, Key, Refusal, IsId, AllIds;
    PoliciesValid(st);
    PolicyKeeps(st, RegisterPolicy(st, actor, policyId, policy).0);
  }

  lemma RegisterTemplateKeeps(st: Store, actor: Actor, name: Text, template: Template)
    requires Inv(st)
    ensures Inv(RegisterTemplate(st, actor, name, template).0)
  {
    hide Inv, ValidPolicy, Key, Refusal, IsId, AllIds;
    PoliciesValid(st);
    PolicyKeeps(st, RegisterTemplate(st, actor, name, template).0);
  }

  lemma RegisterIssuerKeeps(st: Store, actor: Actor, issuerId: Text, profile: Profile)
    requires Inv(st)
    ensures Inv(RegisterIssuer(st, actor, issuerId, profile).0)
  {
    hide Inv, ValidPolicy, Key, Refusal, IsId, AllIds;
    PoliciesValid(st);
    PolicyKeeps(st, RegisterIssuer(st, actor, issuerId, profile).0);
  }

  lemma InitInv()
    ensures Inv(Init())
  {}

  lemma {:induction false} RunKeeps(st: Store, events: seq<Event>)
    requires Inv(st)
    ensures Inv(Run(st, events))
    decreases |events|
  {
    hide Step, Inv;
    if |events| > 0 {
      StepKeeps(st, events[0]);
      RunKeeps(Step(st, events[0]), events[1..]);
    }
  }

  // ---------------------------------------------------------------- theorems

  function OpenGrants(st: Store, owner: Text): set<Text> {
    set s | s in st.grants && st.grants[s].Owner() == owner && st.grants[s].consumedAt.None?
  }

  function OpenTokens(st: Store, owner: Text): set<Text> {
    set s | s in st.tokens && st.tokens[s].Owner() == owner && st.tokens[s].consumedAt.None?
  }

  function IssuedFor(st: Store, owner: Text): set<int> {
    set i | 0 <= i < |st.issued| && st.issued[i].owner == owner
  }

  lemma AtMostOneElement<T>(s: set<T>)
    requires forall x, y | x in s && y in s :: x == y
    ensures |s| <= 1
  {
    if x :| x in s {
      assert s == {x};
    }
  }

  /** In every reachable state a session has at most one of: an unspent grant, an unspent access
      token, a credential ever issued. */
  lemma OneCredentialASession(events: seq<Event>, owner: Text)
    ensures
      var st := Run(Init(), events);
      |OpenGrants(st, owner)| + |OpenTokens(st, owner)| + |IssuedFor(st, owner)| <= 1
  {
    hide Run, SessionOk, Quorum, Grant.Owner, AccessToken.Owner;
    InitInv();
    RunKeeps(Init(), events);
    OneLiveCounts(Run(Init(), events), owner);
  }

  lemma OneLiveCounts(st: Store, owner: Text)
    requires Accounted(st, owner)
    ensures |OpenGrants(st, owner)| + |OpenTokens(st, owner)| + |IssuedFor(st, owner)| <= 1
  {
    var grants, tokens, issued := OpenGrants(st, owner), OpenTokens(st, owner), IssuedFor(st, owner);
    forall s | s in grants ensures Live(st, owner, OpenGrant(s)) {}
    forall s | s in tokens ensures Live(st, owner, OpenToken(s)) {}
    forall i | i in issued ensures Live(st, owner, IssuedCredential(i)) {}
    AllSame(st, owner, grants, tokens, issued);
  }

  lemma AllSame(st: Store, owner: Text, grants: set<Text>, tokens: set<Text>, issued: set<int>)
    requires OneLive(st, owner) && forall i | i in issued :: i >= 0
    requires forall s | s in grants :: Live(st, owner, OpenGrant(s))
    requires forall s | s in tokens :: Live(st, owner, OpenToken(s))
    requires forall i | i in issued :: Live(st, owner, IssuedCredential(i))
    ensures |grants| + |tokens| + |issued| <= 1
  {
    hide Live;
    forall x, y | x in grants && y in grants ensures x == y {
      assert OpenGrant(x) == OpenGrant(y);
    }
    forall x, y | x in tokens && y in tokens ensures x == y {
      assert OpenToken(x) == OpenToken(y);
    }
    forall x, y | x in issued && y in issued ensures x == y {
      assert IssuedCredential(x) == IssuedCredential(y);
    }
    AtMostOneElement(grants);
    AtMostOneElement(tokens);
    AtMostOneElement(issued);
    if g :| g in grants {
      NoOther(st, owner, OpenGrant(g), {}, tokens, issued);
    } else if t :| t in tokens {
      NoOther(st, owner, OpenToken(t), grants, {}, issued);
    }
  }

  lemma NoOther(st: Store, owner: Text, a: Artifact, grants: set<Text>, tokens: set<Text>, issued: set<int>)
    requires OneLive(st, owner) && Live(st, owner, a) && forall i | i in issued :: i >= 0
    requires forall s | s in grants :: Live(st, owner, OpenGrant(s)) && a != OpenGrant(s)
    requires forall s | s in tokens :: Live(st, owner, OpenToken(s)) && a != OpenToken(s)
    requires forall i | i in issued :: Live(st, owner, IssuedCredential(i)) && a != IssuedCredential(i)
    ensures grants == {} && tokens == {} && issued == {}
  {
    hide Live;
    forall s ensures s !in grants && s !in tokens {
      assert s in grants ==> OpenGrant(s) == a;
      assert s in tokens ==> OpenToken(s) == a;
    }
    forall i ensures i !in issued {
      assert i in issued ==> IssuedCredential(i) == a;
    }
  }

  /** Every credential ever issued has its quorum, whatever policies were registered meanwhile. */
  lemma EveryIssuanceHasQuorum(events: seq<Event>, i: Issuance)
    requires i in Run(Init(), events).issued
    ensures ValidPolicy(i.policy) && 1 <= i.policy.requiredApprovals <= |Approvers(i.reviews, i.policy)|
    ensures forall r | r in i.reviews :: r.approved
  {
    hide Run, SessionOk, Accounted;
    InitInv();
    RunKeeps(Init(), events);
    assert Quorum(i);
  }

  // --------------------------------------------------------- spent for good

  /** Secrets are never dropped, and a spent one never changes. */
  ghost predicate SecretsKept(st: Store, next: Store) {
    && (forall s | s in st.grants ::
          s in next.grants && (st.grants[s].consumedAt.Some? ==> next.grants[s] == st.grants[s]))
    && (forall s | s in st.tokens ::
          s in next.tokens && (st.tokens[s].consumedAt.Some? ==> next.tokens[s] == st.tokens[s]))
  }

  /** What every step but issuing does. */
  ghost predicate IssuesNothing(st: Store, next: Store) {
    SecretsKept(st, next) && next.issued == st.issued
  }

  lemma KeptTwice(st: Store, middle: Store, next: Store)
    requires SecretsKept(st, middle) && SecretsKept(middle, next)
    ensures SecretsKept(st, next)
  {}

  lemma ConsumeGrantKept(st: Store, secret: Text, tenantId: Text, kind: GrantKind, now: int)
    ensures IssuesNothing(st, ConsumeGrant(st, secret, tenantId, kind, now).0)
  {}

  lemma ConsumeTokenKept(st: Store, secret: Text, tenantId: Text, now: int)
    ensures IssuesNothing(st, ConsumeAccessToken(st, secret, tenantId, now).0)
  {}

  lemma NewGrantKept(st: Store, secret: Text, grant: Grant)
    requires secret !in st.grants
    ensures SecretsKept(st, st.(grants := st.grants[secret := grant]))
  {}

  lemma NewTokenKept(st: Store, secret: Text, token: AccessToken)
    requires secret !in st.tokens
    ensures SecretsKept(st, st.(tokens := st.tokens[secret := token]))
  {}

  lemma SessionStepKept(st: Store, tenantId: Text, sessionId: Text, now: int)
    ensures IssuesNothing(st, LiveSession(st, tenantId, sessionId, now).0)
  {
    hide Key, IsId;
  }

  lemma CreateRequestKept(st: Store, actor: Actor, d: Draft, portExists: bool, clock: Clock)
    ensures IssuesNothing(st, CreateRequest(st, actor, d, portExists, clock).0)
  {
    hide Key, IsId, SameTemplate, TemplateKey, Refusal;
  }

  lemma ReviewKept(st: Store, actor: Actor, sessionId: Text, approve: bool, clock: Clock)
    ensures IssuesNothing(st, ReviewIssuance(st, actor, sessionId, approve, clock).0)
  {
    hide Key, IsId, CountApproved, Refusal, LiveSession;
    SessionStepKept(st, actor.tenantId, sessionId, clock(0));
  }

  lemma OfferKept(st: Store, actor: Actor, sessionId: Text, kind: GrantKind, ttl: int, clientId: Option<Text>,
                  redirectUri: Option<Text>, key: KeyAnswers, draws: Draws, clock: Clock)
    ensures IssuesNothing(st, CreateOffer(st, actor, sessionId, kind, ttl, clientId, redirectUri, key, draws, clock).0)
  {
    hide Key, IsId, Refusal, UniqueToken, Authorized;
    SessionStepKept(st, actor.tenantId, sessionId, clock(0));
  }

  lemma AuthorizeKept(st: Store, actor: Actor, tenantId: Text, issuerState: Text, clientId: Text, redirectUri: Text,
                      draws: Draws, clock: Clock)
    ensures IssuesNothing(st, Authorize(st, actor, tenantId, issuerState, clientId, redirectUri, draws, clock).0)
  {
    hide Key, IsId, Refusal, UniqueToken, ConsumeGrant, SecretsKept;
    SameSecrets(st, st);
    ConsumeGrantKept(st, issuerState, tenantId, AuthorizationCode, clock(0));
    var st1 := ConsumeGrant(st, issuerState, tenantId, AuthorizationCode, clock(0)).0;
    var r := Authorize(st, actor, tenantId, issuerState, clientId, redirectUri, draws, clock);
    if r.1.Ok? {
      NewGrantKept(st1, r.1.value, r.0.grants[r.1.value]);
      KeptTwice(st, st1, r.0);
    }
  }

  lemma ExchangeKept(st: Store, tenantId: Text, code: Text, client: Option<(Text, Text)>, draws: Draws, clock: Clock)
    ensures IssuesNothing(st, ExchangeToken(st, tenantId, code, client, draws, clock).0)
  {
    hide UniqueToken, ConsumeGrant, SecretsKept;
    var kind := if client.Some? then AuthorizationCode else PreAuthorizedCode;
    ConsumeGrantKept(st, code, tenantId, kind, clock(0));
    var st1 := ConsumeGrant(st, code, tenantId, kind, clock(0)).0;
    var r := ExchangeToken(st, tenantId, code, client, draws, clock);
    if r.1.Ok? {
      NewTokenKept(st1, r.1.value, r.0.tokens[r.1.value]);
      KeptTwice(st, st1, r.0);
    }
  }

  lemma IssuingKeepsSecrets(st: Store, token: AccessToken, configurationOk: bool, ports: Ports, draws: nat -> Draws,
                            clock: Clock)
    ensures
      var st1, next := LiveSession(st, token.tenantId, token.sessionId, clock(1)).0,
        IssueWith(st, token, configurationOk, ports, draws, clock).0;
      next.grants == st1.grants && next.tokens == st1.tokens
  {
    hide Key, UniqueToken, Authorized, CredentialId, IsId, Session.Owner;
    var owner := token.Owner();
    var live := LiveSession(st, token.tenantId, token.sessionId, clock(1));
    if live.1.Ok? {
      assert owner in live.0.sessions;
      PhaseTouchesNoSecret(live.0, owner, SigningAmbiguous);
    }
  }

  lemma PhaseTouchesNoSecret(st: Store, owner: Text, phase: Phase)
    requires owner in st.sessions
    ensures WithPhase(st, owner, phase).grants == st.grants && WithPhase(st, owner, phase).tokens == st.tokens
    ensures WithPhase(st, owner, phase).issued == st.issued
  {}

  lemma IssueWithKept(st: Store, token: AccessToken, configurationOk: bool, ports: Ports, draws: nat -> Draws,
                      clock: Clock)
    ensures SecretsKept(st, IssueWith(st, token, configurationOk, ports, draws, clock).0)
  {
    hide IssueWith, LiveSession, SecretsKept;
    SessionStepKept(st, token.tenantId, token.sessionId, clock(1));
    IssuingKeepsSecrets(st, token, configurationOk, ports, draws, clock);
    var st1 := LiveSession(st, token.tenantId, token.sessionId, clock(1)).0;
    var next := IssueWith(st, token, configurationOk, ports, draws, clock).0;
    SameSecrets(st1, next);
    KeptTwice(st, st1, next);
  }

  lemma IssueKept(st: Store, tenantId: Text, accessToken: Text, configurationOk: bool, ports: Ports,
                  draws: nat -> Draws, clock: Clock)
    ensures SecretsKept(st, IssueCredential(st, tenantId, accessToken, configurationOk, ports, draws, clock).0)
  {
    hide IssueWith, ConsumeAccessToken, SecretsKept;
    ConsumeTokenKept(st, accessToken, tenantId, clock(0));
    var (st1, consumed) := ConsumeAccessToken(st, accessToken, tenantId, clock(0));
    if consumed.Ok? {
      IssueWithKept(st1, consumed.value, configurationOk, ports, draws, clock);
      KeptTwice(st, st1, IssueWith(st1, consumed.value, configurationOk, ports, draws, clock).0);
    }
  }

  lemma StepKept(st: Store, e: Event)
    ensures SecretsKept(st, Step(st, e))
    ensures !e.IssueEvent? ==> Step(st, e).issued == st.issued
  {
    hide SecretsKept, RegisterPolicy, RegisterTemplate, RegisterIssuer, CreateRequest, ReviewIssuance, CreateOffer,
      Authorize, ExchangeToken, IssueCredential;
    match e
    case PolicyEvent(actor, id, policy) =>
      RegistersSame(st, actor, id, policy, Template(false, {}), Profile({}));
      SameSecrets(st, Step(st, e));
    case TemplateEvent(actor, name, template) =>
      RegistersSame(st, actor, name, Policy([], 0, []), template, Profile({}));
      SameSecrets(st, Step(st, e));
    case IssuerEvent(actor, id, profile) =>
      RegistersSame(st, actor, id, Policy([], 0, []), Template(false, {}), profile);
      SameSecrets(st, Step(st, e));
    case RequestEvent(actor, draft, portExists, clock) => CreateRequestKept(st, actor, draft, portExists, clock);
    case ReviewEvent(actor, id, approve, clock) => ReviewKept(st, actor, id, approve, clock);
    case OfferEvent(actor, id, kind, ttl, clientId, redirectUri, key, draws, clock) =>
      OfferKept(st, actor, id, kind, ttl, clientId, redirectUri, key, draws, clock);
    case AuthorizeEvent(actor, tenantId, issuerState, client, redirect, draws, clock) =>
      AuthorizeKept(st, actor, tenantId, issuerState, client, redirect, draws, clock);
    case ExchangeEvent(tenantId, code, client, draws, clock) => ExchangeKept(st, tenantId, code, client, draws, clock);
    case IssueEvent(tenantId, accessToken, configurationOk, ports, draws, clock) =>
      IssueKept(st, tenantId, accessToken, configurationOk, ports, draws, clock);
  }

  predicate OnlyRegisters(st: Store, next: Store) {
    next.grants == st.grants && next.tokens == st.tokens && next.issued == st.issued
  }

  lemma RegistersSame(st: Store, actor: Actor, name: Text, policy: Policy, template: Template, profile: Profile)
    ensures OnlyRegisters(st, RegisterPolicy(st, actor, name, policy).0)
    ensures OnlyRegisters(st, RegisterTemplate(st, actor, name, template).0)
    ensures OnlyRegisters(st, RegisterIssuer(st, actor, name, profile).0)
  {
    hide OnlyRegisters, RegisterPolicy, RegisterTemplate, RegisterIssuer;
    PolicySame(st, actor, name, policy);
    TemplateSame(st, actor, name, template);
    IssuerSame(st, actor, name, profile);
  }

  lemma PolicySame(st: Store, actor: Actor, name: Text, policy: Policy)
    ensures OnlyRegisters(st, RegisterPolicy(st, actor, name, policy).0)
  {
    hide IsId, AllIds, Key, Refusal, ValidPolicy;
  }

  lemma TemplateSame(st: Store, actor: Actor, name: Text, template: Template)
    ensures OnlyRegisters(st, RegisterTemplate(st, actor, name, template).0)
  {
    hide IsId, Key, Refusal;
  }

  lemma IssuerSame(st: Store, actor: Actor, name: Text, profile: Profile)
    ensures OnlyRegisters(st, RegisterIssuer(st, actor, name, profile).0)
  {
    hide IsId, Key, Refusal;
  }

  lemma SameSecrets(st: Store, next: Store)
    requires next.grants == st.grants && next.tokens == st.tokens
    ensures SecretsKept(st, next)
  {}

  lemma {:induction false} RunKept(st: Store, events: seq<Event>)
    ensures SecretsKept(st, Run(st, events))
    decreases |events|
  {
    hide Step;
    if |events| > 0 {
      StepKept(st, events[0]);
      RunKept(Step(st, events[0]), events[1..]);
    }
  }

  /** A code accepted once at the token endpoint, even for the wrong client, is refused ever after: by the
      check that both the token and the authorization endpoint make, for any tenant, flow and time. */
  lemma CodeIsSingleUse(st: Store, tenantId: Text, code: Text, client: Option<(Text, Text)>, draws: Draws, clock: Clock,
                        events: seq<Event>, again: Text, kind: GrantKind, later: int)
    requires
      var kind := if client.Some? then AuthorizationCode else PreAuthorizedCode;
      ConsumeGrant(st, code, tenantId, kind, clock(0)).1.Ok?
    ensures
      var st1 := Run(ExchangeToken(st, tenantId, code, client, draws, clock).0, events);
      ConsumeGrant(st1, code, again, kind, later).1.Err? && ConsumeGrant(st1, code, again, kind, later).0 == st1
  {
    hide Run, UniqueToken, SecretsKept;
    var flow := if client.Some? then AuthorizationCode else PreAuthorizedCode;
    var spent := ConsumeGrant(st, code, tenantId, flow, clock(0)).0;
    var next := ExchangeToken(st, tenantId, code, client, draws, clock).0;
    assert code in next.grants && next.grants[code] == spent.grants[code];
    RunKept(next, events);
    SpentGrant(next, Run(next, events), code);
  }

  lemma SpentGrant(st: Store, next: Store, secret: Text)
    requires SecretsKept(st, next) && secret in st.grants && st.grants[secret].consumedAt.Some?
    ensures secret in next.grants && next.grants[secret].consumedAt.Some?
  {}

  lemma SpentToken(st: Store, next: Store, secret: Text)
    requires SecretsKept(st, next) && secret in st.tokens && st.tokens[secret].consumedAt.Some?
    ensures secret in next.tokens && next.tokens[secret].consumedAt.Some?
  {}

  /** An access token used once, whether or not it led to a credential, is refused ever after. */
  lemma AccessTokenIsSingleUse(st: Store, tenantId: Text, accessToken: Text, configurationOk: bool, ports: Ports,
                               draws: nat -> Draws, clock: Clock, events: seq<Event>, e: Event)
    requires ConsumeAccessToken(st, accessToken, tenantId, clock(0)).1.Ok?
    requires e.IssueEvent? && e.accessToken == accessToken
    ensures
      var st1 := Run(IssueCredential(st, tenantId, accessToken, configurationOk, ports, draws, clock).0, events);
      Step(st1, e) == st1
  {
    hide Run, IssueWith, SecretsKept;
    var (spent, token) := ConsumeAccessToken(st, accessToken, tenantId, clock(0));
    var next := IssueCredential(st, tenantId, accessToken, configurationOk, ports, draws, clock).0;
    IssueWithKept(spent, token.value, configurationOk, ports, draws, clock);
    SpentToken(spent, next, accessToken);
    RunKept(next, events);
    SpentToken(next, Run(next, events), accessToken);
  }

  /** One credential more, for a session on offer, under the policy registered now and the session's reviews. */
  predicate IssuesOne(st: Store, next: Store, owner: Text) {
    && |next.issued| == |st.issued| + 1 && st.issued == next.issued[..|st.issued|]
    && owner in st.sessions
    && var (session, i) := (st.sessions[owner], next.issued[|st.issued|]);
    && session.phase == Offered && i.owner == session.Owner() && i.reviews == session.reviews
    && Key(session.tenantId, session.policyId) in st.policies
    && i.policy == st.policies[Key(session.tenantId, session.policyId)]
  }

  lemma AuthorizedPolicy(st: Store, session: Session, key: KeyAnswers)
    ensures Authorized(st, session, key).Ok? ==>
      && Key(session.tenantId, session.policyId) in st.policies
      && Authorized(st, session, key).value == st.policies[Key(session.tenantId, session.policyId)]
  {
    hide Key, TemplateKey, Approvers;
  }

  lemma IssueWithIssuesOne(st: Store, token: AccessToken, configurationOk: bool, ports: Ports, draws: nat -> Draws,
                           clock: Clock)
    ensures
      var next := IssueWith(st, token, configurationOk, ports, draws, clock).0;
      next.issued == st.issued || IssuesOne(st, next, token.Owner())
  {
    hide Key, LiveSession, UniqueToken, Authorized, CredentialId, Session.Owner, IssuesOne, Recorded, WithPhase;
    var owner := token.Owner();
    LiveSessionFinds(st, token.tenantId, token.sessionId, clock(1));
    var live := LiveSession(st, token.tenantId, token.sessionId, clock(1)).1;
    if live.Ok? {
      PhaseTouchesNoSecret(st, owner, SigningAmbiguous);
      if live.value.phase == Offered && Authorized(st, live.value, ports.key).Ok? && UniqueToken(st, draws(0), 0).Ok? {
        var policy, name := Authorized(st, live.value, ports.key).value,
          CredentialId(UniqueToken(st, draws(0), 0).value);
        RecordIssuesOne(st, owner, name, ports.key, clock(2));
        MoveIssuesOne(st, Recorded(st, live.value, name, policy, clock(2)), owner);
      }
    }
  }

  lemma LiveSessionFinds(st: Store, tenantId: Text, sessionId: Text, now: int)
    ensures
      var (next, r) := LiveSession(st, tenantId, sessionId, now);
      && next.issued == st.issued
      && (r.Ok? ==>
            && next == st && Key(tenantId, sessionId) in st.sessions
            && r.value == st.sessions[Key(tenantId, sessionId)] && now < r.value.expiresAt)
  {
    hide Key, IsId;
  }

  lemma RecordIssuesOne(st: Store, owner: Text, name: Text, key: KeyAnswers, issuedAt: int)
    requires owner in st.sessions && st.sessions[owner].phase == Offered && Authorized(st, st.sessions[owner], key).Ok?
    ensures
      var next := Recorded(st, st.sessions[owner], name, Authorized(st, st.sessions[owner], key).value, issuedAt);
      IssuesOne(st, next, owner) && next.sessions == st.sessions
  {
    hide Key, Authorized, Session.Owner;
    AuthorizedPolicy(st, st.sessions[owner], key);
  }

  lemma MoveIssuesOne(st: Store, next: Store, owner: Text)
    requires IssuesOne(st, next, owner) && owner in next.sessions
    ensures IssuesOne(st, WithPhase(next, owner, Issued), owner)
  {
    hide Key, Session.Owner;
  }

  lemma IssueCredentialIssuesOne(st: Store, tenantId: Text, accessToken: Text, configurationOk: bool, ports: Ports,
                                 draws: nat -> Draws, clock: Clock)
    ensures
      var next := IssueCredential(st, tenantId, accessToken, configurationOk, ports, draws, clock).0;
      next.issued == st.issued || (
        && accessToken in st.tokens && st.tokens[accessToken].consumedAt.None?
        && IssuesOne(st, next, st.tokens[accessToken].Owner()))
  {
    hide Key, IssueWith, Session.Owner;
    var (spent, token) := ConsumeAccessToken(st, accessToken, tenantId, clock(0));
    if token.Ok? {
      IssueWithIssuesOne(spent, token.value, configurationOk, ports, draws, clock);
    }
  }

  /** The policy an issuance is measured against is the one registered at that moment, the reviews are
      the session's, and the session was on offer to the unspent access token's owner. */
  lemma IssuedUnderCurrentPolicy(st: Store, e: Event)
    ensures Step(st, e).issued == st.issued || (
      && e.IssueEvent? && e.accessToken in st.tokens && st.tokens[e.accessToken].consumedAt.None?
      && IssuesOne(st, Step(st, e), st.tokens[e.accessToken].Owner()))
  {
    hide IssuesOne, IssueCredential, RegisterPolicy, RegisterTemplate, RegisterIssuer, CreateRequest, ReviewIssuance,
      CreateOffer, Authorize, ExchangeToken, AccessToken.Owner;
    match e
    case IssueEvent(tenantId, accessToken, configurationOk, ports, draws, clock) =>
      IssueCredentialIssuesOne(st, tenantId, accessToken, configurationOk, ports, draws, clock);
    case _ => StepKept(st, e);
  }

  /** What a single issuance takes: an unspent, unexpired token, a live session on offer, a valid holder
      proof, an active key that the registry trusts, a published template for the format, an authorised
      issuer, and a clean signature. */
  lemma IssuedOnlyAfterAllChecks(st: Store, tenantId: Text, accessToken: Text, configurationOk: bool, ports: Ports,
                                 draws: nat -> Draws, clock: Clock)
    requires IssueCredential(st, tenantId, accessToken, configurationOk, ports, draws, clock).0.issued != st.issued
    ensures configurationOk && ports.proofValid && ports.key.active && ports.key.trusted && ports.formatPort
    ensures ports.signing == Signed
    ensures accessToken in st.tokens && st.tokens[accessToken].tenantId == tenantId
    ensures st.tokens[accessToken].consumedAt.None? && clock(0) < st.tokens[accessToken].expiresAt
    ensures st.tokens[accessToken].Owner() in st.sessions
    ensures
      var session := st.sessions[st.tokens[accessToken].Owner()];
      && session.phase == Offered && clock(1) < session.expiresAt
      && TemplateKey(session) in st.templates && st.templates[TemplateKey(session)].published
      && session.format in st.templates[TemplateKey(session)].formats
      && Key(session.tenantId, session.issuerId) in st.issuers
      && session.templateId in st.issuers[Key(session.tenantId, session.issuerId)].templates
  {
    hide IssueWith, Key, TemplateKey, Session.Owner;
    var (spent, token) := ConsumeAccessToken(st, accessToken, tenantId, clock(0));
    assert token.Ok?;
    IssuedWithAllChecks(spent, token.value, configurationOk, ports, draws, clock);
  }

  lemma IssuedWithAllChecks(st: Store, token: AccessToken, configurationOk: bool, ports: Ports, draws: nat -> Draws,
                            clock: Clock)
    requires IssueWith(st, token, configurationOk, ports, draws, clock).0.issued != st.issued
    ensures configurationOk && ports.proofValid && ports.key.active && ports.key.trusted && ports.formatPort
    ensures ports.signing == Signed && token.Owner() in st.sessions
    ensures
      var session := st.sessions[token.Owner()];
      && session.phase == Offered && clock(1) < session.expiresAt
      && TemplateKey(session) in st.templates && st.templates[TemplateKey(session)].published
      && session.format in st.templates[TemplateKey(session)].formats
      && Key(session.tenantId, session.issuerId) in st.issuers
      && session.templateId in st.issuers[Key(session.tenantId, session.issuerId)].templates
  {
    hide Key, LiveSession, UniqueToken, CredentialId, TemplateKey, Approvers, Session.Owner;
    LiveSessionFinds(st, token.tenantId, token.sessionId, clock(1));
    var live := LiveSession(st, token.tenantId, token.sessionId, clock(1)).1;
    assert live.Ok? && live.value.phase == Offered && configurationOk;
    assert Authorized(st, live.value, ports.key).Ok?;
  }

  /** An access token belongs to the session of the code it was bought with, and outlives neither the
      code nor a minute. */
  lemma AccessTokenDescends(st: Store, tenantId: Text, code: Text, client: Option<(Text, Text)>, draws: Draws,
                            clock: Clock)
    requires ExchangeToken(st, tenantId, code, client, draws, clock).1.Ok?
    ensures
      var (next, r) := ExchangeToken(st, tenantId, code, client, draws, clock);
      && code in st.grants && r.value !in st.tokens && r.value !in st.grants && r.value in next.tokens
      && next.tokens[r.value].Owner() == st.grants[code].Owner()
      && next.tokens[r.value].expiresAt <= st.grants[code].expiresAt
      && next.tokens[r.value].expiresAt <= clock(1) + 60000
      && next.tokens[r.value].consumedAt.None?
  {
    hide UniqueToken, Key;
  }

  /** A code belongs to the session, client and redirect address of the offer it comes from, and outlives
      neither the offer nor a minute. */
  lemma CodeDescends(st: Store, actor: Actor, tenantId: Text, issuerState: Text, clientId: Text, redirectUri: Text,
                     draws: Draws, clock: Clock)
    requires Authorize(st, actor, tenantId, issuerState, clientId, redirectUri, draws, clock).1.Ok?
    ensures
      var (next, r) := Authorize(st, actor, tenantId, issuerState, clientId, redirectUri, draws, clock);
      && issuerState in st.grants && r.value !in st.grants && r.value in next.grants
      && var (offer, code) := (st.grants[issuerState], next.grants[r.value]);
      && code.Owner() == offer.Owner() && code.kind == offer.kind == AuthorizationCode
      && code.clientId == offer.clientId == Some(clientId) && code.redirectUri == offer.redirectUri == Some(redirectUri)
      && code.expiresAt <= offer.expiresAt && code.expiresAt <= clock(1) + 60000
  {
    hide UniqueToken, Key, IsId, Refusal;
  }

  /** A review is recorded only for a live session still under review, by a reviewer whom the policy now in
      force authorises and who has not reviewed it; one rejection ends it, and it is approved exactly
      when as many approvals as that policy asks for are there. */
  lemma ReviewExactly(st: Store, actor: Actor, sessionId: Text, approve: bool, clock: Clock)
    requires ReviewIssuance(st, actor, sessionId, approve, clock).1.Ok?
    ensures
      var (next, owner) := (ReviewIssuance(st, actor, sessionId, approve, clock).0, Key(actor.tenantId, sessionId));
      && owner in st.sessions && owner in next.sessions
      && var (before, after) := (st.sessions[owner], next.sessions[owner]);
      && before.phase == PendingReview && clock(0) < before.expiresAt
      && Key(actor.tenantId, before.policyId) in st.policies
      && var policy := st.policies[Key(actor.tenantId, before.policyId)];
      && actor.principalId in policy.reviewers
      && (forall r | r in before.reviews :: r.reviewerId != actor.principalId)
      && after.reviews == before.reviews + [Review(actor.principalId, approve, clock(1))]
      && (after.phase == Rejected <==> !approve)
      && (after.phase == Approved <==> approve && CountApproved(after.reviews) >= policy.requiredApprovals)
      && (forall k | k in st.sessions && k != owner :: k in next.sessions && next.sessions[k] == st.sessions[k])
  {
    hide Key, IsId, Refusal, CountApproved;
  }
}
