/**
 What an offer in flight leads to, and a run of the issuer service, from its start, in which two offers of
 a session overlap and the session ends with two credentials.
 */
module OverlappingOffers {
  import opened Strings
  import opened Wrappers
  import opened IssuerService
  import opened IssuerInvariants
  import opened IssuerInterleaving

  // --------------------------------------------------------------- the actors

  /** Every id is `a`; one actor holds every scope. */
  const ID: Text := [0x61]
  const OWNER := Key(ID, ID)
  const NAME := ID + [0x3a, 0x76] + ID
  const SCOPES := {"templates:write", "issuers:write", "reviewer-policies:write", "issuance:write", "issuance:review",
    "offers:write"}
  const ACTOR := Actor(ID, ID, SCOPES)
  const TEMPLATE := Template(true, {ID})
  const POLICY := Policy(ID, 1, [ID])
  const DRAFT := Draft(ID, ID, ID, ID, ID, ID, 10, None)
  const REVIEWS := [Review(ID, true, 0)]
  const OFFER := OfferCall(ID, ID, PreAuthorizedCode, 1000, None, None)
  const PORTS := Ports(ALL_WELL, true, true, Signed, true)

  /** A clock that stands still, and a random source that draws one token. */
  function Still(t: int): Clock {
    (n: nat) => t
  }

  function Draw(token: Text): Draws {
    (n: nat) => token
  }

  function Sources(token: Text): nat -> Draws {
    (n: nat) => Draw(token)
  }

  function At(phase: Phase, reviews: seq<Review>): Session {
    Session(ID, ID, ID, ID, ID, ID, ID, phase, reviews, 10)
  }

  /** The store once template, issuer, policy and session are there. */
  function Stage(phase: Phase, reviews: seq<Review>): Store {
    Store(map[Key(ID, NAME) := TEMPLATE], map[OWNER := Profile({ID})], map[OWNER := POLICY],
          map[OWNER := At(phase, reviews)], map[], map[], map[], [])
  }

  lemma IdOk()
    ensures IsId(ID)
  {}

  lemma ScopesOk(scope: string)
    requires scope in SCOPES
    ensures Refusal(ACTOR, scope).None?
  {
    hide IsId, SCOPES;
    IdOk();
  }

  lemma Drawn(st: Store, token: Text)
    requires IsToken(token) && token !in st.grants && token !in st.tokens
    ensures UniqueToken(st, Draw(token), 0) == Ok(token)
  {
    hide IsToken;
  }

  // ------------------------------------------------------- an approved session

  const OPENING := [
    Whole(TemplateEvent(ACTOR, NAME, TEMPLATE)), Whole(IssuerEvent(ACTOR, ID, Profile({ID}))),
    Whole(PolicyEvent(ACTOR, ID, POLICY)), Whole(RequestEvent(ACTOR, DRAFT, true, Still(0))),
    Whole(ReviewEvent(ACTOR, ID, true, Still(0)))]

  lemma RegistersDone()
    ensures
      Step(Step(Step(Init(), TemplateEvent(ACTOR, NAME, TEMPLATE)), IssuerEvent(ACTOR, ID, Profile({ID}))),
        PolicyEvent(ACTOR, ID, POLICY))
      == Stage(PendingReview, []).(sessions := map[])
  {
    hide IsId, Key, Refusal, SCOPES;
    IdOk();
    ScopesAre();
  }

  lemma ScopesAre()
    ensures Refusal(ACTOR, "templates:write").None? && Refusal(ACTOR, "issuers:write").None?
    ensures Refusal(ACTOR, "reviewer-policies:write").None? && Refusal(ACTOR, "issuance:write").None?
    ensures Refusal(ACTOR, "issuance:review").None? && Refusal(ACTOR, "offers:write").None?
  {
    hide Refusal;
    ScopesOk("templates:write");
    ScopesOk("issuers:write");
    ScopesOk("reviewer-policies:write");
    ScopesOk("issuance:write");
    ScopesOk("issuance:review");
    ScopesOk("offers:write");
  }

  lemma RequestDone()
    ensures
      Step(Stage(PendingReview, []).(sessions := map[]), RequestEvent(ACTOR, DRAFT, true, Still(0)))
      == Stage(PendingReview, [])
  {
    hide IsId, Key, Refusal, SCOPES;
    IdOk();
    ScopesAre();
  }

  lemma ReviewDone()
    ensures
      Step(Stage(PendingReview, []), ReviewEvent(ACTOR, ID, true, Still(0)))
      == Stage(Approved, REVIEWS)
  {
    hide IsId, Key, Refusal, SCOPES;
    IdOk();
    ScopesAre();
    assert [] + REVIEWS == REVIEWS;
    assert CountApproved(REVIEWS) == 1;
  }

  lemma ApprovedWorld()
    ensures History(Start(), OPENING) == World(Stage(Approved, REVIEWS), map[], map[])
  {
    hide Step, Stage;
    RegistersDone();
    RequestDone();
    ReviewDone();
    var w1 := Pass(Start(), OPENING[0]);
    var w2 := Pass(w1, OPENING[1]);
    var w3 := Pass(w2, OPENING[2]);
    var w4 := Pass(w3, OPENING[3]);
    HistoryFive(Start(), OPENING);
  }

  lemma HistoryFive(w: World, ms: seq<Moment>)
    requires |ms| == 5
    ensures History(w, ms) == Pass(Pass(Pass(Pass(Pass(w, ms[0]), ms[1]), ms[2]), ms[3]), ms[4])
  {
    hide Pass;
    assert ms[1..][1..] == ms[2..] && ms[2..][1..] == ms[3..] && ms[3..][1..] == ms[4..] && ms[4..][1..] == [];
    var w1 := Pass(w, ms[0]);
    var w2 := Pass(w1, ms[1]);
    var w3 := Pass(w2, ms[2]);
    var w4 := Pass(w3, ms[3]);
    Next(w, ms);
    Next(w1, ms[1..]);
    Next(w2, ms[2..]);
    Next(w3, ms[3..]);
    Next(w4, ms[4..]);
    assert History(Pass(w4, ms[4]), []) == Pass(w4, ms[4]);
  }

  lemma Next(w: World, ms: seq<Moment>)
    requires |ms| > 0
    ensures History(w, ms) == History(Pass(w, ms[0]), ms[1..])
  {
    hide Pass;
  }

  lemma {:induction false} HistoryAppend(w: World, first: seq<Moment>, second: seq<Moment>)
    ensures History(w, first + second) == History(History(w, first), second)
    decreases |first|
  {
    hide Pass;
    if |first| == 0 {
      assert first + second == second;
    } else {
      assert (first + second)[1..] == first[1..] + second;
      HistoryAppend(Pass(w, first[0]), first[1..], second);
    }
  }

  // ------------------------------------------------------- two offers begin

  lemma Allowed()
    ensures Authorized(Stage(Approved, REVIEWS), At(Approved, REVIEWS), ALL_WELL) == Ok(POLICY)
  {
    hide Key;
    assert REVIEWS[0] in REVIEWS;
    assert Approvers(REVIEWS, POLICY) == {ID};
  }

  lemma Begins(call: nat, offers: map<nat, OfferCall>)
    requires call !in offers
    ensures
      var w := World(Stage(Approved, REVIEWS), offers, map[]);
      Pass(w, OfferBegins(call, ACTOR, OFFER, Still(0))) == w.(offers := offers[call := OFFER])
  {
    hide Key, IsId, Refusal, SCOPES, Authorized;
    IdOk();
    ScopesAre();
    Allowed();
  }

  // ------------------------------- from the end of an offer to its credential

  /** The end of an offer in flight, and how its code is traded for a credential: the secrets drawn, the
      token that names the credential, and the time. */
  datatype Redemption = Redemption(call: nat, code: Text, access: Text, name: Text, t: int)

  /** The offer ends with a grant, which buys an access token, which buys a credential. */
  function Redeemed(c: OfferCall, r: Redemption): seq<Moment> {
    [OfferEnds(r.call, ALL_WELL, Draw(r.code), Still(r.t)),
     Whole(ExchangeEvent(c.tenantId, r.code, None, Draw(r.access), Still(r.t))),
     IssueBegins(r.call, c.tenantId, r.access, true, Still(r.t)),
     SigningEnds(r.call, PORTS, Sources(r.name), Still(r.t)),
     PublishingEnds(r.call, true)]
  }

  predicate NewTokens(st: Store, r: Redemption) {
    && IsToken(r.code) && IsToken(r.access) && IsToken(r.name)
    && r.code != r.access && r.code != r.name && r.access != r.name
    && r.code !in st.grants && r.access !in st.grants && r.name !in st.grants
    && r.code !in st.tokens && r.access !in st.tokens && r.name !in st.tokens
  }

  /** A pre-authorised offer of a session that is there. */
  predicate Offers(st: Store, c: OfferCall) {
    && c.Owner() in st.sessions && IsId(c.sessionId)
    && st.sessions[c.Owner()].tenantId == c.tenantId && st.sessions[c.Owner()].sessionId == c.sessionId
    && c.kind == PreAuthorizedCode && c.clientId.None? && c.redirectUri.None? && c.ttl > 0
  }

  function GrantOf(c: OfferCall, t: int): Grant {
    Grant(c.tenantId, c.sessionId, c.kind, t + c.ttl, c.clientId, c.redirectUri, None)
  }

  function AccessOf(c: OfferCall, t: int): AccessToken {
    AccessToken(c.tenantId, c.sessionId, Min(t + c.ttl, t + 60000), None)
  }

  function Ended(st: Store, c: OfferCall, r: Redemption): Store
    requires Offers(st, c)
  {
    var moved := WithPhase(st, c.Owner(), Offered);
    moved.(grants := st.grants[r.code := GrantOf(c, r.t)])
  }

  function Exchanged(st: Store, c: OfferCall, r: Redemption): Store {
    st.(grants := st.grants[r.code := GrantOf(c, r.t).(consumedAt := Some(r.t))],
        tokens := st.tokens[r.access := AccessOf(c, r.t)])
  }

  function Spent(st: Store, c: OfferCall, r: Redemption): Store {
    st.(tokens := st.tokens[r.access := AccessOf(c, r.t).(consumedAt := Some(r.t))])
  }

  function Written(st: Store, c: OfferCall, r: Redemption, policy: Policy): Store
    requires c.Owner() in st.sessions
  {
    Recorded(st, st.sessions[c.Owner()], CredentialId(r.name), policy, r.t)
  }

  lemma Ends(w: World, c: OfferCall, r: Redemption)
    requires Offers(w.st, c) && NewTokens(w.st, r) && r.call in w.offers && w.offers[r.call] == c
    ensures Pass(w, Redeemed(c, r)[0]) == World(Ended(w.st, c, r), w.offers - {r.call}, w.issues)
  {
    hide Key, UniqueToken, IsToken, WithPhase;
    Drawn(w.st, r.code);
  }

  lemma Exchanges(w: World, c: OfferCall, r: Redemption)
    requires r.code in w.st.grants && w.st.grants[r.code] == GrantOf(c, r.t) && c.kind == PreAuthorizedCode && c.ttl > 0
    requires IsToken(r.access) && r.access !in w.st.grants && r.access !in w.st.tokens && r.access != r.code
    ensures Pass(w, Redeemed(c, r)[1]) == w.(st := Exchanged(w.st, c, r))
  {
    hide Key, UniqueToken, IsToken;
    Drawn(w.st.(grants := w.st.grants[r.code := GrantOf(c, r.t).(consumedAt := Some(r.t))]), r.access);
  }

  lemma Issues(w: World, c: OfferCall, r: Redemption, policy: Policy)
    requires r.access in w.st.tokens && w.st.tokens[r.access] == AccessOf(c, r.t) && c.ttl > 0
    requires c.Owner() in w.st.sessions && IsId(c.sessionId) && r.call !in w.issues
    requires w.st.sessions[c.Owner()].phase == Offered && w.st.sessions[c.Owner()].expiresAt > r.t
    requires Authorized(Spent(w.st, c, r), w.st.sessions[c.Owner()], ALL_WELL) == Ok(policy)
    ensures Pass(w, Redeemed(c, r)[2])
         == World(Spent(w.st, c, r), w.offers, w.issues[r.call := Signing(c.Owner(), policy)])
  {
    hide Key, IsToken, Authorized, IsId;
  }

  lemma Signs(w: World, c: OfferCall, r: Redemption, policy: Policy)
    requires r.call in w.issues && w.issues[r.call] == Signing(c.Owner(), policy) && c.Owner() in w.st.sessions
    requires IsToken(r.name) && r.name !in w.st.grants && r.name !in w.st.tokens
    ensures Pass(w, Redeemed(c, r)[3])
         == World(Written(w.st, c, r, policy), w.offers, w.issues[r.call := Publishing(c.Owner())])
  {
    hide Key, IsToken, UniqueToken, CredentialId, Recorded;
    Drawn(w.st, r.name);
  }

  lemma Publishes(w: World, c: OfferCall, r: Redemption)
    requires r.call in w.issues && w.issues[r.call] == Publishing(c.Owner()) && c.Owner() in w.st.sessions
    ensures Pass(w, Redeemed(c, r)[4]) == World(WithPhase(w.st, c.Owner(), Issued), w.offers, w.issues - {r.call})
  {
    hide Key, WithPhase;
  }

  /** The check before issuing reads neither the phase of the session nor any secret. */
  lemma AuthorizedAnyPhase(st: Store, next: Store, session: Session, phase: Phase)
    requires next.templates == st.templates && next.issuers == st.issuers && next.policies == st.policies
    ensures Authorized(next, session.(phase := phase), ALL_WELL) == Authorized(st, session, ALL_WELL)
  {
    hide Key, Approvers;
  }

  /** The store after all five moments. */
  function Outcome(st: Store, c: OfferCall, r: Redemption, policy: Policy): Store
    requires Offers(st, c)
  {
    var session := st.sessions[c.Owner()].(phase := Issued);
    var name := CredentialId(r.name);
    st.(sessions := st.sessions[c.Owner() := session],
        grants := st.grants[r.code := GrantOf(c, r.t).(consumedAt := Some(r.t))],
        tokens := st.tokens[r.access := AccessOf(c, r.t).(consumedAt := Some(r.t))],
        credentials := st.credentials[Key(c.tenantId, name) :=
                         Credential(c.tenantId, name, session.issuerId, session.templateId, r.t)],
        issued := st.issued + [Issuance(c.Owner(), name, policy, session.reviews)])
  }

  lemma OutcomeIs(st: Store, c: OfferCall, r: Redemption, policy: Policy)
    requires Offers(st, c)
    ensures
      var paid := Spent(Exchanged(Ended(st, c, r), c, r), c, r);
      c.Owner() in paid.sessions
        && WithPhase(Written(paid, c, r, policy), c.Owner(), Issued) == Outcome(st, c, r, policy)
  {
    hide Key, CredentialId, GrantOf, AccessOf;
    var owner, session := c.Owner(), st.sessions[c.Owner()];
    var paid := Spent(Exchanged(Ended(st, c, r), c, r), c, r);
    UpdateTwice(st.sessions, owner, session.(phase := Offered), session.(phase := Issued));
    UpdateTwice(st.grants, r.code, GrantOf(c, r.t), GrantOf(c, r.t).(consumedAt := Some(r.t)));
    UpdateTwice(st.tokens, r.access, AccessOf(c, r.t), AccessOf(c, r.t).(consumedAt := Some(r.t)));
    assert paid.sessions[owner] == session.(phase := Offered);
  }

  lemma UpdateTwice<K, V>(m: map<K, V>, k: K, a: V, b: V)
    ensures m[k := a][k := b] == m[k := b]
  {}

  /** Whatever its session has been issued before, a pre-authorised offer in flight gives it one more
      credential, as long as the session has not expired and would be authorised. */
  lemma OneMore(w: World, c: OfferCall, r: Redemption, policy: Policy)
    requires r.call in w.offers && w.offers[r.call] == c && r.call !in w.issues && Offers(w.st, c) && NewTokens(w.st, r)
    requires w.st.sessions[c.Owner()].expiresAt > r.t
    requires Authorized(w.st, w.st.sessions[c.Owner()], ALL_WELL) == Ok(policy)
    ensures History(w, Redeemed(c, r)) == World(Outcome(w.st, c, r, policy), w.offers - {r.call}, w.issues)
  {
    hide Key, IsToken, IsId, Pass, Redeemed, CredentialId, Authorized, Recorded, OfferCall.Owner, Written, Outcome,
      GrantOf, AccessOf;
    var owner := c.Owner();
    var (offers, ended) := (w.offers - {r.call}, Ended(w.st, c, r));
    var bought := Exchanged(ended, c, r);
    var paid := Spent(bought, c, r);
    AuthorizedAnyPhase(w.st, paid, w.st.sessions[owner], Offered);
    Ends(w, c, r);
    Exchanges(World(ended, offers, w.issues), c, r);
    Issues(World(bought, offers, w.issues), c, r, policy);
    Signs(World(paid, offers, w.issues[r.call := Signing(owner, policy)]), c, r, policy);
    OutcomeIs(w.st, c, r, policy);
    var signing := w.issues[r.call := Signing(owner, policy)];
    WrittenSessions(paid, c, r, policy);
    Publishes(World(Written(paid, c, r, policy), offers, signing[r.call := Publishing(owner)]), c, r);
    FiveMoments(c, r);
    HistoryFive(w, Redeemed(c, r));
    assert signing[r.call := Publishing(owner)] - {r.call} == w.issues;
  }

  lemma FiveMoments(c: OfferCall, r: Redemption)
    ensures |Redeemed(c, r)| == 5
  {}

  lemma WrittenSessions(st: Store, c: OfferCall, r: Redemption, policy: Policy)
    requires c.Owner() in st.sessions
    ensures Written(st, c, r, policy).sessions == st.sessions
  {
    hide Key, CredentialId;
  }

  // --------------------------------------------------------- two credentials

  function Token(k: nat): Text
    requires k < 8
  {
    seq(16, i => 0x61 + k)
  }

  lemma TokenOk(k: nat)
    requires k < 8
    ensures IsToken(Token(k))
  {
    assert |Token(k)| == 16;
    forall c | c in Token(k) ensures c == 0x61 + k {}
  }

  lemma TokensDiffer(j: nat, k: nat)
    requires j < 8 && k < 8 && j != k
    ensures Token(j) != Token(k)
  {
    assert Token(j)[0] == 0x61 + j && Token(k)[0] == 0x61 + k;
  }

  function First(): Redemption {
    Redemption(0, Token(0), Token(1), Token(2), 0)
  }

  function Second(): Redemption {
    Redemption(1, Token(3), Token(4), Token(5), 0)
  }

  /** An approved session is offered twice at once; the first offer is redeemed, and then the second. */
  function Overlapping(): seq<Moment> {
    OPENING + (BEGINS + (Redeemed(OFFER, First()) + Redeemed(OFFER, Second())))
  }

  const BEGINS := [OfferBegins(0, ACTOR, OFFER, Still(0)), OfferBegins(1, ACTOR, OFFER, Still(0))]

  lemma BothBegin()
    ensures History(History(Start(), OPENING), BEGINS)
      == World(Stage(Approved, REVIEWS), map[0 := OFFER, 1 := OFFER], map[])
  {
    hide Pass, Stage, OPENING;
    ApprovedWorld();
    var w := History(Start(), OPENING);
    Begins(0, map[]);
    Begins(1, map[0 := OFFER]);
    Next(w, BEGINS);
    Next(Pass(w, BEGINS[0]), BEGINS[1..]);
  }

  lemma FirstTokens()
    ensures NewTokens(Stage(Approved, REVIEWS), First())
  {
    hide Token, IsToken, Key;
    TokenOk(0);
    TokenOk(1);
    TokenOk(2);
    TokensDiffer(0, 1);
    TokensDiffer(0, 2);
    TokensDiffer(1, 2);
  }

  lemma SecondTokens(st: Store)
    requires st.grants.Keys == {Token(0)} && st.tokens.Keys == {Token(1)}
    ensures NewTokens(st, Second())
  {
    hide Token, IsToken, Key;
    TokenOk(3);
    TokenOk(4);
    TokenOk(5);
    TokensDiffer(3, 4);
    TokensDiffer(3, 5);
    TokensDiffer(4, 5);
    forall k | 3 <= k < 6 ensures Token(k) != Token(0) && Token(k) != Token(1) {
      TokensDiffer(k, 0);
      TokensDiffer(k, 1);
    }
    assert Token(3) != Token(0) && Token(4) != Token(0) && Token(5) != Token(0);
  }

  lemma OffersIt(st: Store, phase: Phase)
    requires OWNER in st.sessions && st.sessions[OWNER] == At(phase, REVIEWS)
    ensures Offers(st, OFFER)
  {
    hide Key;
    IdOk();
  }

  /** The session ends with two credentials, each of its own offer. */
  lemma TwoCredentials()
    ensures |IssuedFor(History(Start(), Overlapping()).st, OWNER)| == 2
  {
    hide History, Redeemed, OPENING, BEGINS, Key, First, Second, NewTokens, Authorized, CredentialId, Stage, Token,
      Outcome;
    var st := Stage(Approved, REVIEWS);
    var (first, second) := (Redeemed(OFFER, First()), Redeemed(OFFER, Second()));
    HistoryAppend(Start(), OPENING, BEGINS + (first + second));
    HistoryAppend(History(Start(), OPENING), BEGINS, first + second);
    BothBegin();
    var w := World(st, map[0 := OFFER, 1 := OFFER], map[]);
    HistoryAppend(w, first, second);
    FirstRedeemed();
    SecondRedeemed();
    TwoIssued(History(Start(), Overlapping()).st, Named(First()), Named(Second()));
  }

  function Named(r: Redemption): Issuance {
    Issuance(OWNER, CredentialId(r.name), POLICY, REVIEWS)
  }

  /** The store between the two redemptions. */
  function Between(): Store {
    OffersIt(Stage(Approved, REVIEWS), Approved);
    Outcome(Stage(Approved, REVIEWS), OFFER, First(), POLICY)
  }

  lemma FirstRedeemed()
    ensures History(World(Stage(Approved, REVIEWS), map[0 := OFFER, 1 := OFFER], map[]), Redeemed(OFFER, First()))
         == World(Between(), map[1 := OFFER], map[])
  {
    hide History, Redeemed, Key, NewTokens, Authorized, Outcome, Token;
    OffersIt(Stage(Approved, REVIEWS), Approved);
    FirstTokens();
    Allowed();
    OneMore(World(Stage(Approved, REVIEWS), map[0 := OFFER, 1 := OFFER], map[]), OFFER, First(), POLICY);
    assert map[0 := OFFER, 1 := OFFER] - {0} == map[1 := OFFER];
  }

  lemma BetweenIs()
    ensures OWNER in Between().sessions && Between().sessions[OWNER] == At(Issued, REVIEWS)
    ensures Between().issued == [Named(First())]
    ensures Between().grants.Keys == {Token(0)} && Between().tokens.Keys == {Token(1)}
    ensures Authorized(Between(), At(Issued, REVIEWS), ALL_WELL) == Ok(POLICY)
  {
    hide Key, CredentialId, Token, Authorized;
    Allowed();
    AuthorizedAnyPhase(Stage(Approved, REVIEWS), Between(), At(Approved, REVIEWS), Issued);
  }

  lemma SecondRedeemed()
    ensures History(World(Between(), map[1 := OFFER], map[]), Redeemed(OFFER, Second())).st.issued
         == [Named(First()), Named(Second())]
  {
    hide History, Redeemed, Key, NewTokens, Authorized, Token, Between, CredentialId;
    BetweenIs();
    OffersIt(Between(), Issued);
    SecondTokens(Between());
    OneMore(World(Between(), map[1 := OFFER], map[]), OFFER, Second(), POLICY);
  }

  lemma TwoIssued(st: Store, first: Issuance, second: Issuance)
    requires st.issued == [first, second] && first.owner == second.owner == OWNER
    ensures |IssuedFor(st, OWNER)| == 2
  {
    hide Key;
    assert IssuedFor(st, OWNER) == {0, 1};
  }
}
