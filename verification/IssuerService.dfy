/**
 The institutional issuer service: review, offer, grant, code, access token, credential.

 Every public call is one step.  The random source, the clock and the answers of the ports are
 arguments; secrets are stored under an ideal hash, so a secret is its own key.
 */
module IssuerService {
  import opened Strings
  import opened Wrappers
  import Base64Url

  /** Maps are keyed by the texts `key(tenantId, entityId)`. */
  function Key(tenantId: Text, entityId: Text): Text {
    Join2(tenantId, entityId)
  }

  /** `^[A-Za-z0-9][A-Za-z0-9._:-]{0,127}$` */
  predicate IsId(t: Text) {
    && 1 <= |t| <= 128
    && IsIdStart(t[0])
    && forall i | 0 <= i < |t| :: IsIdStart(t[i]) || t[i] in {0x2e, 0x5f, 0x3a, 0x2d}
  }

  predicate IsIdStart(c: CodeUnit) {
    0x41 <= c <= 0x5a || 0x61 <= c <= 0x7a || IsDigit(c)
  }

  datatype Actor = Actor(tenantId: Text, principalId: Text, scopes: set<string>)

  datatype Policy = Policy(templateId: Text, requiredApprovals: int, reviewers: seq<Text>)

  datatype Template = Template(published: bool, formats: set<Text>)

  datatype Profile = Profile(templates: set<Text>)

  datatype Review = Review(reviewerId: Text, approved: bool, at: int)

  datatype Phase = PendingReview | Approved | Offered | Issued | Rejected | Expired | SigningAmbiguous

  datatype Session = Session(
    tenantId: Text, sessionId: Text, issuerId: Text, templateId: Text, templateVersion: Text, format: Text,
    policyId: Text, phase: Phase, reviews: seq<Review>, expiresAt: int)
  {
    function Owner(): Text {
      Key(tenantId, sessionId)
    }
  }

  datatype GrantKind = PreAuthorizedCode | AuthorizationCode

  datatype Grant = Grant(
    tenantId: Text, sessionId: Text, kind: GrantKind, expiresAt: int,
    clientId: Option<Text>, redirectUri: Option<Text>, consumedAt: Option<int>)
  {
    function Owner(): Text {
      Key(tenantId, sessionId)
    }
  }

  datatype AccessToken = AccessToken(tenantId: Text, sessionId: Text, expiresAt: int, consumedAt: Option<int>) {
    function Owner(): Text {
      Key(tenantId, sessionId)
    }
  }

  datatype Credential = Credential(tenantId: Text, credentialId: Text, issuerId: Text, templateId: Text, issuedAt: int)

  /** One credential issued: its session, and the policy and reviews the last check looked at. */
  datatype Issuance = Issuance(owner: Text, credentialId: Text, policy: Policy, reviews: seq<Review>)

  /** The service's maps, and the history of what it issued. */
  datatype Store = Store(
    templates: map<Text, Template>, issuers: map<Text, Profile>, policies: map<Text, Policy>,
    sessions: map<Text, Session>, credentials: map<Text, Credential>,
    grants: map<Text, Grant>, tokens: map<Text, AccessToken>, issued: seq<Issuance>)

  datatype Error =
    | InvalidId | ScopeRequired | TenantMismatch | NotFound | SessionExists | InvalidExpiry | NotAuthorized
    | InvalidPolicy
    | TemplateNotPublished | TemplateExists | ReissueTemplateMismatch
    | SessionExpired | SessionNotReviewable | ReviewerNotAuthorized | ReviewAlreadyRecorded
    | InvalidOfferTtl | SessionNotApproved | KeyNotAuthorized | TrustNotAuthorized | RandomTokenFailure
    | ClientRequired | UnexpectedClient | InvalidGrant | ExpiredGrant | ClientMismatch | InvalidTokenRequest
    | InvalidAccessToken | AccessTokenReplay | AccessTokenExpired
    | InvalidCredentialRequest | InvalidProof | FormatUnavailable | SigningResultAmbiguous | SigningFailed
    | PublishFailed

  /** The k-th reading of the clock, and the k-th draw of the random source, within a call. */
  type Clock = nat -> int
  type Draws = nat -> Text

  // ---------------------------------------------------------------- helpers

  predicate IsToken(t: Text) {
    16 <= |t| <= 512 && Base64Url.IsBase64Url(t)
  }

  /** `uniqueToken`: at most four draws, none malformed, the first that is no grant and no access token. */
  function UniqueToken(st: Store, draws: Draws, attempt: nat): (r: Result<Text, Error>)
    ensures r.Ok? ==> r.value !in st.grants && r.value !in st.tokens
    ensures r.Err? ==> r.error == RandomTokenFailure
    decreases 4 - attempt
  {
    if attempt >= 4 || !IsToken(draws(attempt)) then Err(RandomTokenFailure)
    else if draws(attempt) !in st.grants && draws(attempt) !in st.tokens then Ok(draws(attempt))
    else UniqueToken(st, draws, attempt + 1)
  }

  function Min(a: int, b: int): int {
    if a < b then a else b
  }

  function ConsumeGrant(st: Store, secret: Text, tenantId: Text, kind: GrantKind, now: int):
    (Store, Result<Grant, Error>)
  {
    if secret !in st.grants then (st, Err(InvalidGrant))
    else
      var grant := st.grants[secret];
      if grant.tenantId != tenantId then (st, Err(TenantMismatch))
      else if grant.kind != kind || grant.consumedAt.Some? then (st, Err(InvalidGrant))
      else
        var consumed := grant.(consumedAt := Some(now));
        (st.(grants := st.grants[secret := consumed]), if grant.expiresAt <= now then Err(ExpiredGrant)
          else Ok(consumed))
  }

  function ConsumeAccessToken(st: Store, secret: Text, tenantId: Text, now: int): (Store, Result<AccessToken, Error>) {
    if secret !in st.tokens then (st, Err(InvalidAccessToken))
    else
      var token := st.tokens[secret];
      if token.tenantId != tenantId then (st, Err(TenantMismatch))
      else if token.consumedAt.Some? then (st, Err(AccessTokenReplay))
      else
        var consumed := token.(consumedAt := Some(now));
        (st.(tokens := st.tokens[secret := consumed]), if token.expiresAt <= now then Err(AccessTokenExpired)
          else Ok(consumed))
  }

  /** `requireScope`: the error it throws, if any. */
  function Refusal(actor: Actor, scope: string): Option<Error> {
    if !IsId(actor.tenantId) || !IsId(actor.principalId) then Some(InvalidId)
    else if scope !in actor.scopes then Some(ScopeRequired)
    else None
  }

  /** `mutableSession` and `ensureSessionLive`: an expired session is marked so, whatever its phase. */
  function LiveSession(st: Store, tenantId: Text, sessionId: Text, now: int): (Store, Result<Session, Error>) {
    var owner := Key(tenantId, sessionId);
    if !IsId(sessionId) then (st, Err(InvalidId))
    else if owner !in st.sessions then (st, Err(NotFound))
    else if st.sessions[owner].expiresAt <= now then (WithPhase(st, owner, Expired), Err(SessionExpired))
    else (st, Ok(st.sessions[owner]))
  }

  function WithPhase(st: Store, owner: Text, phase: Phase): Store
    requires owner in st.sessions
  {
    st.(sessions := st.sessions[owner := st.sessions[owner].(phase := phase)])
  }

  /** The distinct reviewers who approved and whom the policy authorises. */
  function Approvers(reviews: seq<Review>, policy: Policy): set<Text> {
    set r | r in reviews && r.approved && r.reviewerId in policy.reviewers :: r.reviewerId
  }

  function TemplateKey(session: Session): Text {
    Key(session.tenantId, session.templateId + [0x3a, 0x76] + session.templateVersion)
  }

  /** What the signer and the trust registry say about the session's key. */
  datatype KeyAnswers = KeyAnswers(active: bool, trusted: bool)

  /** `assertIssuanceAuthorization`, returning the policy it checked. */
  function Authorized(st: Store, session: Session, key: KeyAnswers): Result<Policy, Error> {
    if TemplateKey(session) !in st.templates || Key(session.tenantId, session.issuerId) !in st.issuers
       || Key(session.tenantId, session.policyId) !in st.policies then Err(NotFound)
    else
      var template := st.templates[TemplateKey(session)];
      var issuer := st.issuers[Key(session.tenantId, session.issuerId)];
      var policy := st.policies[Key(session.tenantId, session.policyId)];
      if !template.published || session.format !in template.formats || session.templateId !in issuer.templates
         || policy.templateId != session.templateId || |Approvers(session.reviews, policy)| < policy.requiredApprovals
      then Err(NotAuthorized)
      else if !key.active then Err(KeyNotAuthorized)
      else if !key.trusted then Err(TrustNotAuthorized)
      else Ok(policy)
  }

  // -------------------------------------------------------------- operations

  predicate AllIds(ids: seq<Text>) {
    forall i | 0 <= i < |ids| :: IsId(ids[i])
  }

  predicate ValidPolicy(p: Policy) {
    && IsId(p.templateId) && AllIds(p.reviewers)
    && 1 <= p.requiredApprovals <= 10 && p.requiredApprovals <= |p.reviewers|
    && forall i, j | 0 <= i < j < |p.reviewers| :: p.reviewers[i] != p.reviewers[j]
  }

  function RegisterPolicy(st: Store, actor: Actor, policyId: Text, policy: Policy): (Store, Result<Policy, Error>) {
    if Refusal(actor, "reviewer-policies:write").Some? then (st, Err(Refusal(actor, "reviewer-policies:write").value))
    else if !IsId(policyId) || !IsId(policy.templateId) then (st, Err(InvalidId))
    else if policy.requiredApprovals < 1 || policy.requiredApprovals > 10 then (st, Err(InvalidPolicy))
    else if !AllIds(policy.reviewers) then (st, Err(InvalidId))
    else if !ValidPolicy(policy) then (st, Err(InvalidPolicy))
    else (st.(policies := st.policies[Key(actor.tenantId, policyId) := policy]), Ok(policy))
  }

  function RegisterTemplate(st: Store, actor: Actor, key: Text, template: Template): (Store, Result<Template, Error>) {
    if Refusal(actor, "templates:write").Some? then (st, Err(Refusal(actor, "templates:write").value))
    else if !template.published then (st, Err(TemplateNotPublished))
    else if Key(actor.tenantId, key) in st.templates then (st, Err(TemplateExists))
    else (st.(templates := st.templates[Key(actor.tenantId, key) := template]), Ok(template))
  }

  function RegisterIssuer(st: Store, actor: Actor, issuerId: Text, profile: Profile): (Store, Result<Profile, Error>) {
    if Refusal(actor, "issuers:write").Some? then (st, Err(Refusal(actor, "issuers:write").value))
    else (st.(issuers := st.issuers[Key(actor.tenantId, issuerId) := profile]), Ok(profile))
  }

  datatype Draft = Draft(
    sessionId: Text, issuerId: Text, templateId: Text, templateVersion: Text, format: Text, policyId: Text,
    expiresAt: int, previousId: Option<Text>)

  function NewSession(actor: Actor, d: Draft): Session {
    Session(actor.tenantId, d.sessionId, d.issuerId, d.templateId, d.templateVersion, d.format, d.policyId,
            PendingReview, [], d.expiresAt)
  }

  function CreateRequest(st: Store, actor: Actor, d: Draft, portExists: bool, clock: Clock):
    (Store, Result<Session, Error>)
  {
    var session := NewSession(actor, d);
    if Refusal(actor, "issuance:write").Some? then (st, Err(Refusal(actor, "issuance:write").value))
    else if !IsId(d.sessionId) || !IsId(d.issuerId) || !IsId(d.templateId) || !IsId(d.policyId) then
      (st, Err(InvalidId))
    else if d.expiresAt <= clock(0) then (st, Err(InvalidExpiry))
    else if TemplateKey(session) !in st.templates || Key(actor.tenantId, d.issuerId) !in st.issuers
            || Key(actor.tenantId, d.policyId) !in st.policies then (st, Err(NotFound))
    else if d.templateId !in st.issuers[Key(actor.tenantId, d.issuerId)].templates
            || st.policies[Key(actor.tenantId, d.policyId)].templateId != d.templateId
            || d.format !in st.templates[TemplateKey(session)].formats || !portExists then (st, Err(NotAuthorized))
    else if d.previousId.Some? && Key(actor.tenantId, d.previousId.value) !in st.credentials then (st, Err(NotFound))
    else if d.previousId.Some? && !SameTemplate(st.credentials[Key(actor.tenantId, d.previousId.value)], d) then
      (st, Err(ReissueTemplateMismatch))
    else if session.Owner() in st.sessions then (st, Err(SessionExists))
    else (st.(sessions := st.sessions[session.Owner() := session]), Ok(session))
  }

  predicate SameTemplate(c: Credential, d: Draft) {
    c.templateId == d.templateId && c.issuerId == d.issuerId
  }

  function CountApproved(reviews: seq<Review>): nat {
    if |reviews| == 0 then 0 else (if reviews[0].approved then 1 else 0) + CountApproved(reviews[1..])
  }

  function ReviewIssuance(st: Store, actor: Actor, sessionId: Text, approve: bool, clock: Clock):
    (Store, Result<Session, Error>)
  {
    var owner := Key(actor.tenantId, sessionId);
    if Refusal(actor, "issuance:review").Some? then (st, Err(Refusal(actor, "issuance:review").value))
    else
      var (st1, live) := LiveSession(st, actor.tenantId, sessionId, clock(0));
      if live.Err? then (st1, live)
      else if live.value.phase != PendingReview then (st1, Err(SessionNotReviewable))
      else if Key(actor.tenantId, live.value.policyId) !in st1.policies then (st1, Err(NotFound))
      else
        var policy := st1.policies[Key(actor.tenantId, live.value.policyId)];
        if actor.principalId !in policy.reviewers then (st1, Err(ReviewerNotAuthorized))
        else if exists r | r in live.value.reviews :: r.reviewerId == actor.principalId then
          (st1, Err(ReviewAlreadyRecorded))
        else
          var reviews := live.value.reviews + [Review(actor.principalId, approve, clock(1))];
          var phase := if !approve then Rejected
                       else if CountApproved(reviews) >= policy.requiredApprovals then Approved else PendingReview;
          var session := live.value.(reviews := reviews, phase := phase);
          (st1.(sessions := st1.sessions[owner := session]), Ok(session))
  }

  const MAX_OFFER_TTL_MS := 600000

  function CreateOffer(st: Store, actor: Actor, sessionId: Text, kind: GrantKind, ttl: int, clientId: Option<Text>,
                       redirectUri: Option<Text>, key: KeyAnswers, draws: Draws, clock: Clock):
    (Store, Result<Text, Error>)
  {
    var owner := Key(actor.tenantId, sessionId);
    if Refusal(actor, "offers:write").Some? then (st, Err(Refusal(actor, "offers:write").value))
    else if ttl < 1000 || ttl > MAX_OFFER_TTL_MS then (st, Err(InvalidOfferTtl))
    else
      var (st1, live) := LiveSession(st, actor.tenantId, sessionId, clock(0));
      if live.Err? then (st1, Err(live.error))
      else if live.value.phase != Approved then (st1, Err(SessionNotApproved))
      else
        var allowed := Authorized(st1, live.value, key);
        if allowed.Err? then (st1, Err(allowed.error))
        else
          var secret := UniqueToken(st1, draws, 0);
          if secret.Err? then (st1, Err(secret.error))
          else if kind == AuthorizationCode && (clientId.None? || redirectUri.None?) then (st1, Err(ClientRequired))
          else if kind == PreAuthorizedCode && (clientId.Some? || redirectUri.Some?) then (st1, Err(UnexpectedClient))
          else
            var grant := Grant(actor.tenantId, live.value.sessionId, kind, clock(1) + ttl, clientId, redirectUri, None);
            (WithPhase(st1.(grants := st1.grants[secret.value := grant]), owner, Offered), Ok(secret.value))
  }

  function Authorize(st: Store, actor: Actor, tenantId: Text, issuerState: Text, clientId: Text, redirectUri: Text,
                     draws: Draws, clock: Clock): (Store, Result<Text, Error>)
  {
    if !IsId(tenantId) then (st, Err(InvalidId))
    else if actor.tenantId != tenantId then (st, Err(TenantMismatch))
    else if Refusal(actor, "oid4vci:authorize").Some? then (st, Err(Refusal(actor, "oid4vci:authorize").value))
    else
      var (st1, consumed) := ConsumeGrant(st, issuerState, tenantId, AuthorizationCode, clock(0));
      if consumed.Err? then (st1, Err(consumed.error))
      else if consumed.value.clientId != Some(clientId) || consumed.value.redirectUri != Some(redirectUri) then
        (st1, Err(ClientMismatch))
      else
        var code := UniqueToken(st1, draws, 0);
        if code.Err? then (st1, code)
        else
          var grant := Grant(tenantId, consumed.value.sessionId, AuthorizationCode,
                             Min(consumed.value.expiresAt, clock(1) + 60000), Some(clientId), Some(redirectUri), None);
          (st1.(grants := st1.grants[code.value := grant]), code)
  }

  /** `client` is absent in the pre-authorized flow. */
  function ExchangeToken(st: Store, tenantId: Text, code: Text, client: Option<(Text, Text)>, draws: Draws,
                         clock: Clock):
    (Store, Result<Text, Error>)
  {
    var kind := if client.Some? then AuthorizationCode else PreAuthorizedCode;
    var (st1, consumed) := ConsumeGrant(st, code, tenantId, kind, clock(0));
    if consumed.Err? then (st1, Err(consumed.error))
    else if client.Some? && (consumed.value.clientId != Some(client.value.0)
      || consumed.value.redirectUri != Some(client.value.1)) then
      (st1, Err(ClientMismatch))
    else
      var token := UniqueToken(st1, draws, 0);
      if token.Err? then (st1, token)
      else
        var access := AccessToken(tenantId, consumed.value.sessionId, Min(consumed.value.expiresAt, clock(1) + 60000),
          None);
        (st1.(tokens := st1.tokens[token.value := access]), token)
  }

  /** How the format port's call ends. */
  datatype Signing = Ambiguous | Throws | Mismatched | Signed

  datatype Ports = Ports(key: KeyAnswers, proofValid: bool, formatPort: bool, signing: Signing, published: bool)

  function CredentialId(token: Text): Text {
    Ascii("cred-") + if |token| <= 24 then token else token[..24]
  }

  function IssueCredential(st: Store, tenantId: Text, accessToken: Text, configurationOk: bool, ports: Ports,
                           draws: nat -> Draws, clock: Clock): (Store, Result<Text, Error>)
  {
    var (st1, consumed) := ConsumeAccessToken(st, accessToken, tenantId, clock(0));
    if consumed.Err? then (st1, Err(consumed.error))
    else IssueWith(st1, consumed.value, configurationOk, ports, draws, clock)
  }

  /** The rest of `issueCredential`, once the access token is spent. */
  function IssueWith(st: Store, token: AccessToken, configurationOk: bool, ports: Ports, draws: nat -> Draws,
                     clock: Clock):
    (Store, Result<Text, Error>)
  {
    var owner := token.Owner();
    var (st1, live) := LiveSession(st, token.tenantId, token.sessionId, clock(1));
    if live.Err? then (st1, Err(live.error))
    else if live.value.phase != Offered || !configurationOk then (st1, Err(InvalidCredentialRequest))
    else
      var allowed := Authorized(st1, live.value, ports.key);
      if allowed.Err? then (st1, Err(allowed.error))
      else if !ports.proofValid then (st1, Err(InvalidProof))
      else
        var name, status, request := UniqueToken(st1, draws(0), 0), UniqueToken(st1, draws(1), 0),
          UniqueToken(st1, draws(2), 0);
        if name.Err? || status.Err? || request.Err? then (st1, Err(RandomTokenFailure))
        else if !ports.formatPort then (st1, Err(FormatUnavailable))
        else
          match ports.signing
          case Throws => (st1, Err(SigningFailed))
          case Ambiguous => (WithPhase(st1, owner, SigningAmbiguous), Err(SigningResultAmbiguous))
          case Mismatched => (WithPhase(st1, owner, SigningAmbiguous), Err(SigningResultAmbiguous))
          case Signed =>
            var st2 := Recorded(st1, live.value, CredentialId(name.value), allowed.value, clock(2));
            if !ports.published then (st2, Err(PublishFailed))
            else (WithPhase(st2, owner, Issued), Ok(CredentialId(name.value)))
  }

  function Recorded(st: Store, session: Session, credentialId: Text, policy: Policy, issuedAt: int): Store {
    var record := Credential(session.tenantId, credentialId, session.issuerId, session.templateId, issuedAt);
    st.(credentials := st.credentials[Key(session.tenantId, credentialId) := record],
        issued := st.issued + [Issuance(session.Owner(), credentialId, policy, session.reviews)])
  }

  // ------------------------------------------------------------------- runs

  datatype Event =
    | PolicyEvent(actor: Actor, policyId: Text, policy: Policy)
    | TemplateEvent(actor: Actor, name: Text, template: Template)
    | IssuerEvent(actor: Actor, issuerId: Text, profile: Profile)
    | RequestEvent(actor: Actor, draft: Draft, portExists: bool, clock: Clock)
    | ReviewEvent(actor: Actor, sessionId: Text, approve: bool, clock: Clock)
    | OfferEvent(actor: Actor, sessionId: Text, kind: GrantKind, ttl: int, clientId: Option<Text>,
                 redirectUri: Option<Text>, key: KeyAnswers, draws: Draws, clock: Clock)
    | AuthorizeEvent(actor: Actor, tenantId: Text, issuerState: Text, client: Text, redirect: Text, draws: Draws,
      clock: Clock)
    | ExchangeEvent(tenantId: Text, code: Text, exchangeClient: Option<(Text, Text)>, draws: Draws, clock: Clock)
    | IssueEvent(tenantId: Text, accessToken: Text, configurationOk: bool, ports: Ports, sources: nat -> Draws,
      clock: Clock)

  function Step(st: Store, e: Event): Store {
    match e
    case PolicyEvent(actor, id, policy) => RegisterPolicy(st, actor, id, policy).0
    case TemplateEvent(actor, name, template) => RegisterTemplate(st, actor, name, template).0
    case IssuerEvent(actor, id, profile) => RegisterIssuer(st, actor, id, profile).0
    case RequestEvent(actor, draft, portExists, clock) => CreateRequest(st, actor, draft, portExists, clock).0
    case ReviewEvent(actor, id, approve, clock) => ReviewIssuance(st, actor, id, approve, clock).0
    case OfferEvent(actor, id, kind, ttl, clientId, redirectUri, key, draws, clock) =>
      CreateOffer(st, actor, id, kind, ttl, clientId, redirectUri, key, draws, clock).0
    case AuthorizeEvent(actor, tenantId, issuerState, client, redirect, draws, clock) =>
      Authorize(st, actor, tenantId, issuerState, client, redirect, draws, clock).0
    case ExchangeEvent(tenantId, code, client, draws, clock) =>
      ExchangeToken(st, tenantId, code, client, draws, clock).0
    case IssueEvent(tenantId, accessToken, configurationOk, ports, draws, clock) =>
      IssueCredential(st, tenantId, accessToken, configurationOk, ports, draws, clock).0
  }

  function Init(): Store {
    Store(map[], map[], map[], map[], map[], map[], map[], [])
  }

  function Run(st: Store, events: seq<Event>): Store
    decreases |events|
  {
    if |events| == 0 then st else Run(Step(st, events[0]), events[1..])
  }
}
