/** The issuer service object: its maps, and each call proved to be the step it is meant to be and to keep the
    invariant. */
module IssuerServiceObject {
  import opened Strings
  import opened Wrappers
  import opened IssuerService
  import opened IssuerInvariants

  class InstitutionalIssuerService {
    var templates: map<Text, Template>
    var issuers: map<Text, Profile>
    var policies: map<Text, Policy>
    var sessions: map<Text, Session>
    var credentials: map<Text, Credential>
    var grants: map<Text, Grant>
    var tokens: map<Text, AccessToken>
    ghost var issued: seq<Issuance>

    ghost function Contents(): Store
      reads this
    {
      Store(templates, issuers, policies, sessions, credentials, grants, tokens, issued)
    }

    /** What the service keeps between calls: one live secret or credential a session, and the review quorum. */
    ghost predicate Valid()
      reads this
    {
      Inv(Contents())
    }

    constructor ()
      ensures Contents() == Init() && Valid()
    {
      InitInv();
      templates, issuers, policies, sessions := map[], map[], map[], map[];
      credentials, grants, tokens := map[], map[], map[];
      issued := [];
    }

    method DrawToken(draws: Draws) returns (r: Result<Text, Error>)
      ensures r == UniqueToken(Contents(), draws, 0)
    {
      var attempt := 0;
      while attempt < 4
        invariant 0 <= attempt <= 4
        invariant UniqueToken(Contents(), draws, 0) == UniqueToken(Contents(), draws, attempt)
      {
        var token := draws(attempt);
        if !IsToken(token) {
          return Err(RandomTokenFailure);
        }
        if token !in grants && token !in tokens {
          return Ok(token);
        }
        attempt := attempt + 1;
      }
      r := Err(RandomTokenFailure);
    }

    method SpendGrant(secret: Text, tenantId: Text, kind: GrantKind, now: int) returns (r: Result<Grant, Error>)
      modifies this`grants
      ensures (Contents(), r) == ConsumeGrant(old(Contents()), secret, tenantId, kind, now)
    {
      if secret !in grants {
        return Err(InvalidGrant);
      }
      var grant := grants[secret];
      if grant.tenantId != tenantId {
        return Err(TenantMismatch);
      }
      if grant.kind != kind || grant.consumedAt.Some? {
        return Err(InvalidGrant);
      }
      grants := grants[secret := grant.(consumedAt := Some(now))];
      if grant.expiresAt <= now {
        return Err(ExpiredGrant);
      }
      r := Ok(grants[secret]);
    }

    method SpendAccessToken(secret: Text, tenantId: Text, now: int) returns (r: Result<AccessToken, Error>)
      modifies this`tokens
      ensures (Contents(), r) == ConsumeAccessToken(old(Contents()), secret, tenantId, now)
    {
      if secret !in tokens {
        return Err(InvalidAccessToken);
      }
      var token := tokens[secret];
      if token.tenantId != tenantId {
        return Err(TenantMismatch);
      }
      if token.consumedAt.Some? {
        return Err(AccessTokenReplay);
      }
      tokens := tokens[secret := token.(consumedAt := Some(now))];
      if token.expiresAt <= now {
        return Err(AccessTokenExpired);
      }
      r := Ok(tokens[secret]);
    }

    method SetPhase(owner: Text, phase: Phase)
      requires owner in sessions
      modifies this`sessions
      ensures Contents() == WithPhase(old(Contents()), owner, phase)
    {
      sessions := sessions[owner := sessions[owner].(phase := phase)];
    }

    method FindLive(tenantId: Text, sessionId: Text, now: int) returns (r: Result<Session, Error>)
      modifies this`sessions
      ensures (Contents(), r) == LiveSession(old(Contents()), tenantId, sessionId, now)
      ensures r.Ok? ==> Key(tenantId, sessionId) in sessions && r.value == sessions[Key(tenantId, sessionId)]
    {
      if !IsId(sessionId) {
        return Err(InvalidId);
      }
      var owner := Key(tenantId, sessionId);
      if owner !in sessions {
        return Err(NotFound);
      }
      if sessions[owner].expiresAt <= now {
        SetPhase(owner, Expired);
        return Err(SessionExpired);
      }
      r := Ok(sessions[owner]);
    }

    method AssertAuthorized(session: Session, key: KeyAnswers) returns (r: Result<Policy, Error>)
      ensures r == Authorized(Contents(), session, key)
    {
      var issuerKey, policyKey := Key(session.tenantId, session.issuerId), Key(session.tenantId, session.policyId);
      if TemplateKey(session) !in templates || issuerKey !in issuers || policyKey !in policies {
        return Err(NotFound);
      }
      var template, issuer, policy := templates[TemplateKey(session)], issuers[issuerKey], policies[policyKey];
      if !template.published || session.format !in template.formats || session.templateId !in issuer.templates
         || policy.templateId != session.templateId || |Approvers(session.reviews, policy)| < policy.requiredApprovals {
        return Err(NotAuthorized);
      }
      if !key.active {
        return Err(KeyNotAuthorized);
      }
      if !key.trusted {
        return Err(TrustNotAuthorized);
      }
      r := Ok(policy);
    }

    method RegisterReviewerPolicy(actor: Actor, policyId: Text, policy: Policy) returns (r: Result<Policy, Error>)
      requires Valid()
      modifies this`policies
      ensures (Contents(), r) == RegisterPolicy(old(Contents()), actor, policyId, policy)
      ensures Valid()
    {
      hide Inv, Key, IsId, Refusal, ValidPolicy, AllIds;
      RegisterPolicyKeeps(Contents(), actor, policyId, policy);
      var refusal := Refusal(actor, "reviewer-policies:write");
      if refusal.Some? {
        return Err(refusal.value);
      }
      if !IsId(policyId) || !IsId(policy.templateId) {
        return Err(InvalidId);
      }
      if policy.requiredApprovals < 1 || policy.requiredApprovals > 10 {
        return Err(InvalidPolicy);
      }
      if !AllIds(policy.reviewers) {
        return Err(InvalidId);
      }
      if !ValidPolicy(policy) {
        return Err(InvalidPolicy);
      }
      policies := policies[Key(actor.tenantId, policyId) := policy];
      r := Ok(policy);
    }

    method PublishTemplate(actor: Actor, name: Text, template: Template) returns (r: Result<Template, Error>)
      requires Valid()
      modifies this`templates
      ensures (Contents(), r) == RegisterTemplate(old(Contents()), actor, name, template)
      ensures Valid()
    {
      hide Inv, Key, IsId, Refusal;
      RegisterTemplateKeeps(Contents(), actor, name, template);
      var refusal := Refusal(actor, "templates:write");
      if refusal.Some? {
        return Err(refusal.value);
      }
      if !template.published {
        return Err(TemplateNotPublished);
      }
      if Key(actor.tenantId, name) in templates {
        return Err(TemplateExists);
      }
      templates := templates[Key(actor.tenantId, name) := template];
      r := Ok(template);
    }

    method EnrolIssuer(actor: Actor, issuerId: Text, profile: Profile) returns (r: Result<Profile, Error>)
      requires Valid()
      modifies this`issuers
      ensures (Contents(), r) == RegisterIssuer(old(Contents()), actor, issuerId, profile)
      ensures Valid()
    {
      hide Inv, Key, IsId, Refusal;
      RegisterIssuerKeeps(Contents(), actor, issuerId, profile);
      var refusal := Refusal(actor, "issuers:write");
      if refusal.Some? {
        return Err(refusal.value);
      }
      issuers := issuers[Key(actor.tenantId, issuerId) := profile];
      r := Ok(profile);
    }

    method CreateIssuanceRequest(actor: Actor, d: Draft, portExists: bool, clock: Clock)
      returns (r: Result<Session, Error>)
      requires Valid()
      modifies this`sessions
      ensures (Contents(), r) == CreateRequest(old(Contents()), actor, d, portExists, clock)
      ensures Valid()
    {
      hide Inv, Key, IsId, Refusal;
      CreateRequestKeeps(Contents(), actor, d, portExists, clock);
      var refusal := Refusal(actor, "issuance:write");
      if refusal.Some? {
        return Err(refusal.value);
      }
      if !IsId(d.sessionId) || !IsId(d.issuerId) || !IsId(d.templateId) || !IsId(d.policyId) {
        return Err(InvalidId);
      }
      if d.expiresAt <= clock(0) {
        return Err(InvalidExpiry);
      }
      var session := NewSession(actor, d);
      var issuerKey, policyKey := Key(actor.tenantId, d.issuerId), Key(actor.tenantId, d.policyId);
      if TemplateKey(session) !in templates || issuerKey !in issuers || policyKey !in policies {
        return Err(NotFound);
      }
      if d.templateId !in issuers[issuerKey].templates || policies[policyKey].templateId != d.templateId
         || d.format !in templates[TemplateKey(session)].formats || !portExists {
        return Err(NotAuthorized);
      }
      if d.previousId.Some? {
        var previous := Key(actor.tenantId, d.previousId.value);
        if previous !in credentials {
          return Err(NotFound);
        }
        if credentials[previous].templateId != d.templateId || credentials[previous].issuerId != d.issuerId {
          return Err(ReissueTemplateMismatch);
        }
      }
      if session.Owner() in sessions {
        return Err(SessionExists);
      }
      sessions := sessions[session.Owner() := session];
      r := Ok(session);
    }

    method Review(actor: Actor, sessionId: Text, approve: bool, clock: Clock) returns (r: Result<Session, Error>)
      requires Valid()
      modifies this`sessions
      ensures (Contents(), r) == ReviewIssuance(old(Contents()), actor, sessionId, approve, clock)
      ensures Valid()
    {
      hide Inv, Key, IsId, Refusal;
      ReviewKeeps(Contents(), actor, sessionId, approve, clock);
      var refusal := Refusal(actor, "issuance:review");
      if refusal.Some? {
        return Err(refusal.value);
      }
      var session :- FindLive(actor.tenantId, sessionId, clock(0));
      if session.phase != PendingReview {
        return Err(SessionNotReviewable);
      }
      var policyKey := Key(actor.tenantId, session.policyId);
      if policyKey !in policies {
        return Err(NotFound);
      }
      var policy := policies[policyKey];
      if actor.principalId !in policy.reviewers {
        return Err(ReviewerNotAuthorized);
      }
      if exists review | review in session.reviews :: review.reviewerId == actor.principalId {
        return Err(ReviewAlreadyRecorded);
      }
      var reviews := session.reviews + [IssuerService.Review(actor.principalId, approve, clock(1))];
      session := session.(reviews := reviews);
      if !approve {
        session := session.(phase := Rejected);
      } else if CountApproved(reviews) >= policy.requiredApprovals {
        session := session.(phase := Approved);
      }
      sessions := sessions[Key(actor.tenantId, sessionId) := session];
      r := Ok(session);
    }

    method Offer(actor: Actor, sessionId: Text, kind: GrantKind, ttl: int, clientId: Option<Text>,
                 redirectUri: Option<Text>, key: KeyAnswers, draws: Draws, clock: Clock)
      returns (r: Result<Text, Error>)
      requires Valid()
      modifies this`sessions, this`grants
      ensures (Contents(), r)
           == CreateOffer(old(Contents()), actor, sessionId, kind, ttl, clientId, redirectUri, key, draws, clock)
      ensures Valid()
    {
      hide Inv, Key, IsId, Refusal, Authorized, UniqueToken;
      CreateOfferKeeps(Contents(), actor, sessionId, kind, ttl, clientId, redirectUri, key, draws, clock);
      var refusal := Refusal(actor, "offers:write");
      if refusal.Some? {
        return Err(refusal.value);
      }
      if ttl < 1000 || ttl > MAX_OFFER_TTL_MS {
        return Err(InvalidOfferTtl);
      }
      var session :- FindLive(actor.tenantId, sessionId, clock(0));
      if session.phase != Approved {
        return Err(SessionNotApproved);
      }
      var policy :- AssertAuthorized(session, key);
      var secret :- DrawToken(draws);
      if kind == AuthorizationCode && (clientId.None? || redirectUri.None?) {
        return Err(ClientRequired);
      }
      if kind == PreAuthorizedCode && (clientId.Some? || redirectUri.Some?) {
        return Err(UnexpectedClient);
      }
      grants := grants[secret :=
        Grant(actor.tenantId, session.sessionId, kind, clock(1) + ttl, clientId, redirectUri, None)];
      SetPhase(Key(actor.tenantId, sessionId), Offered);
      r := Ok(secret);
    }

    method AuthorizeClient(actor: Actor, tenantId: Text, issuerState: Text, clientId: Text, redirectUri: Text,
                           draws: Draws, clock: Clock) returns (r: Result<Text, Error>)
      requires Valid()
      modifies this`grants
      ensures (Contents(), r)
        == Authorize(old(Contents()), actor, tenantId, issuerState, clientId, redirectUri, draws, clock)
      ensures Valid()
    {
      hide Inv, IsId, Refusal, UniqueToken, ConsumeGrant;
      AuthorizeKeeps(Contents(), actor, tenantId, issuerState, clientId, redirectUri, draws, clock);
      if !IsId(tenantId) {
        return Err(InvalidId);
      }
      if actor.tenantId != tenantId {
        return Err(TenantMismatch);
      }
      var refusal := Refusal(actor, "oid4vci:authorize");
      if refusal.Some? {
        return Err(refusal.value);
      }
      var grant :- SpendGrant(issuerState, tenantId, AuthorizationCode, clock(0));
      if grant.clientId != Some(clientId) || grant.redirectUri != Some(redirectUri) {
        return Err(ClientMismatch);
      }
      var code :- DrawToken(draws);
      grants := grants[code :=
        Grant(tenantId, grant.sessionId, AuthorizationCode, Min(grant.expiresAt, clock(1) + 60000),
                                     Some(clientId), Some(redirectUri), None)];
      r := Ok(code);
    }

    method Exchange(tenantId: Text, code: Text, client: Option<(Text, Text)>, draws: Draws, clock: Clock)
      returns (r: Result<Text, Error>)
      requires Valid()
      modifies this`grants, this`tokens
      ensures (Contents(), r) == ExchangeToken(old(Contents()), tenantId, code, client, draws, clock)
      ensures Valid()
    {
      hide Inv, UniqueToken, ConsumeGrant;
      ExchangeKeeps(Contents(), tenantId, code, client, draws, clock);
      var kind := if client.Some? then AuthorizationCode else PreAuthorizedCode;
      var grant :- SpendGrant(code, tenantId, kind, clock(0));
      if client.Some? && (grant.clientId != Some(client.value.0) || grant.redirectUri != Some(client.value.1)) {
        return Err(ClientMismatch);
      }
      var token :- DrawToken(draws);
      tokens := tokens[token := AccessToken(tenantId, grant.sessionId, Min(grant.expiresAt, clock(1) + 60000), None)];
      r := Ok(token);
    }

    method Issue(tenantId: Text, accessToken: Text, configurationOk: bool, ports: Ports, draws: nat -> Draws,
                 clock: Clock)
      returns (r: Result<Text, Error>)
      requires Valid()
      modifies this`sessions, this`tokens, this`credentials, this`issued
      ensures (Contents(), r)
        == IssueCredential(old(Contents()), tenantId, accessToken, configurationOk, ports, draws, clock)
      ensures Valid()
    {
      hide Inv, Key, UniqueToken, Authorized, ConsumeAccessToken, CredentialId, LiveSession;
      IssueCredentialKeeps(Contents(), tenantId, accessToken, configurationOk, ports, draws, clock);
      var token :- SpendAccessToken(accessToken, tenantId, clock(0));
      var session :- FindLive(token.tenantId, token.sessionId, clock(1));
      if session.phase != Offered || !configurationOk {
        return Err(InvalidCredentialRequest);
      }
      var policy :- AssertAuthorized(session, ports.key);
      if !ports.proofValid {
        return Err(InvalidProof);
      }
      var name :- DrawToken(draws(0));
      var status :- DrawToken(draws(1));
      var request :- DrawToken(draws(2));
      if !ports.formatPort {
        return Err(FormatUnavailable);
      }
      if ports.signing == Throws {
        return Err(SigningFailed);
      }
      if ports.signing == Ambiguous || ports.signing == Mismatched {
        SetPhase(token.Owner(), SigningAmbiguous);
        return Err(SigningResultAmbiguous);
      }
      var credentialId := CredentialId(name);
      credentials := credentials[Key(session.tenantId, credentialId) :=
        Credential(session.tenantId, credentialId, session.issuerId, session.templateId, clock(2))];
      issued := issued + [Issuance(session.Owner(), credentialId, policy, session.reviews)];
      if !ports.published {
        return Err(PublishFailed);
      }
      SetPhase(token.Owner(), Issued);
      r := Ok(credentialId);
    }
  }
}
