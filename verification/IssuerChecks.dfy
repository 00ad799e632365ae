/** Exactly when each call of the issuer service succeeds, and what it does then, told from its arguments and the store
    alone. */
module IssuerChecks {
  import opened Strings
  import opened Wrappers
  import opened IssuerService

  /** The actor's ids are well formed, and the scope is granted. */
  predicate May(actor: Actor, scope: string) {
    IsId(actor.tenantId) && IsId(actor.principalId) && scope in actor.scopes
  }

  lemma RefusalExactly(actor: Actor, scope: string)
    ensures Refusal(actor, scope).None? <==> May(actor, scope)
    ensures Refusal(actor, scope) == Some(InvalidId) <==> !IsId(actor.tenantId) || !IsId(actor.principalId)
  {
    hide IsId;
  }

  // ------------------------------------------------------------------ tokens

  /** A well-formed token that is neither a grant nor an access token yet. */
  predicate Usable(st: Store, t: Text) {
    IsToken(t) && t !in st.grants && t !in st.tokens
  }

  /** The k-th draw is the first usable one, and no draw before it was malformed. */
  predicate DrawnAt(st: Store, draws: Draws, k: nat) {
    Usable(st, draws(k)) && forall j: nat | j < k :: IsToken(draws(j)) && !Usable(st, draws(j))
  }

  lemma {:induction false} DrawnFrom(st: Store, draws: Draws, attempt: nat, t: Text)
    requires attempt <= 4 && forall j: nat | j < attempt :: IsToken(draws(j)) && !Usable(st, draws(j))
    ensures UniqueToken(st, draws, attempt) == Ok(t) <==>
      exists k: nat | k < 4 :: DrawnAt(st, draws, k) && draws(k) == t
    decreases 4 - attempt
  {
    hide IsToken;
    if attempt < 4 && IsToken(draws(attempt)) {
      if Usable(st, draws(attempt)) {
        assert DrawnAt(st, draws, attempt);
      } else {
        DrawnFrom(st, draws, attempt + 1, t);
      }
    }
    forall k: nat | k < 4 && DrawnAt(st, draws, k) ensures k >= attempt {}
  }

  /** A secret is the first usable one of at most four draws. */
  lemma TokenExactly(st: Store, draws: Draws, t: Text)
    ensures UniqueToken(st, draws, 0) == Ok(t) <==> exists k: nat | k < 4 :: DrawnAt(st, draws, k) && draws(k) == t
  {
    DrawnFrom(st, draws, 0, t);
  }

  predicate CanDraw(st: Store, draws: Draws) {
    UniqueToken(st, draws, 0).Ok?
  }

  // ----------------------------------------------------------------- secrets

  /** A grant of the tenant and kind that nobody spent. */
  predicate OpenFor(st: Store, secret: Text, tenantId: Text, kind: GrantKind) {
    && secret in st.grants && st.grants[secret].tenantId == tenantId && st.grants[secret].kind == kind
    && st.grants[secret].consumedAt.None?
  }

  /** A grant is spent exactly when it is open, and accepted when it has not expired either. */
  lemma GrantExactly(st: Store, secret: Text, tenantId: Text, kind: GrantKind, now: int)
    ensures
      var (next, r) := ConsumeGrant(st, secret, tenantId, kind, now);
      && (r.Ok? <==> OpenFor(st, secret, tenantId, kind) && now < st.grants[secret].expiresAt)
      && next == (if OpenFor(st, secret, tenantId, kind)
                  then st.(grants := st.grants[secret := st.grants[secret].(consumedAt := Some(now))])
                  else st)
      && (r.Ok? ==> r.value == next.grants[secret])
  {}

  predicate OpenToken(st: Store, secret: Text, tenantId: Text) {
    secret in st.tokens && st.tokens[secret].tenantId == tenantId && st.tokens[secret].consumedAt.None?
  }

  lemma AccessTokenExactly(st: Store, secret: Text, tenantId: Text, now: int)
    ensures
      var (next, r) := ConsumeAccessToken(st, secret, tenantId, now);
      && (r.Ok? <==> OpenToken(st, secret, tenantId) && now < st.tokens[secret].expiresAt)
      && next == (if OpenToken(st, secret, tenantId)
                  then st.(tokens := st.tokens[secret := st.tokens[secret].(consumedAt := Some(now))])
                  else st)
      && (r.Ok? ==> r.value == next.tokens[secret])
  {}

  // ---------------------------------------------------------------- sessions

  predicate LiveAt(st: Store, tenantId: Text, sessionId: Text, now: int) {
    && IsId(sessionId) && Key(tenantId, sessionId) in st.sessions
    && now < st.sessions[Key(tenantId, sessionId)].expiresAt
  }

  /** A session is found unless it is missing or has expired, and then it is marked so. */
  lemma LiveExactly(st: Store, tenantId: Text, sessionId: Text, now: int)
    ensures
      var (owner, next, r) := (Key(tenantId, sessionId), LiveSession(st, tenantId, sessionId, now).0,
                               LiveSession(st, tenantId, sessionId, now).1);
      && (r.Ok? <==> LiveAt(st, tenantId, sessionId, now))
      && (r.Ok? ==> next == st && r.value == st.sessions[owner])
      && (r.Err? ==> next == if IsId(sessionId) && owner in st.sessions
                             then st.(sessions := st.sessions[owner := st.sessions[owner].(phase := Expired)])
                             else st)
  {
    hide IsId, Key;
  }

  /** The reviewers who approved and whom the policy authorises, counted once each, are enough. */
  predicate EnoughApprovals(reviews: seq<Review>, policy: Policy) {
    |set r | r in reviews && r.approved && r.reviewerId in policy.reviewers :: r.reviewerId| >= policy.requiredApprovals
  }

  /** The template is published for the format, the issuer may issue it, and the policy registered for the
      session now is the template's and has its approvals. */
  predicate MayIssue(st: Store, s: Session) {
    var (template, issuer, policy) :=
      (Key(s.tenantId, s.templateId + Ascii(":v") + s.templateVersion), Key(s.tenantId, s.issuerId),
        Key(s.tenantId, s.policyId));
    && template in st.templates && issuer in st.issuers && policy in st.policies
    && st.templates[template].published && s.format in st.templates[template].formats
    && s.templateId in st.issuers[issuer].templates
    && st.policies[policy].templateId == s.templateId && EnoughApprovals(s.reviews, st.policies[policy])
  }

  lemma VersionMark()
    ensures Ascii(":v") == [0x3a, 0x76]
  {}

  lemma AuthorizedExactly(st: Store, s: Session, key: KeyAnswers)
    ensures Authorized(st, s, key).Ok? <==> MayIssue(st, s) && key.active && key.trusted
    ensures Authorized(st, s, key).Ok? ==> Authorized(st, s, key).value == st.policies[Key(s.tenantId, s.policyId)]
  {
    hide Key, Ascii;
    VersionMark();
  }

  // ------------------------------------------------------------- registration

  lemma PolicyExactly(st: Store, actor: Actor, policyId: Text, p: Policy)
    ensures
      var (next, r) := RegisterPolicy(st, actor, policyId, p);
      && (r.Ok? <==>
            && May(actor, "reviewer-policies:write") && IsId(policyId) && IsId(p.templateId)
            && (forall reviewer | reviewer in p.reviewers :: IsId(reviewer))
            && 1 <= p.requiredApprovals && p.requiredApprovals <= 10 && p.requiredApprovals <= |p.reviewers|
            && forall i, j | 0 <= i < |p.reviewers| && 0 <= j < |p.reviewers| && i != j ::
              p.reviewers[i] != p.reviewers[j])
      && next == if r.Ok? then st.(policies := st.policies[Key(actor.tenantId, policyId) := p]) else st
  {
    hide IsId, Key, Refusal;
    RefusalExactly(actor, "reviewer-policies:write");
    forall i | 0 <= i < |p.reviewers| ensures p.reviewers[i] in p.reviewers {}
    if ValidPolicy(p) {
      forall i, j | 0 <= i < |p.reviewers| && 0 <= j < |p.reviewers| && i != j
        ensures p.reviewers[i] != p.reviewers[j] {
        assert i < j || j < i;
      }
    }
  }

  /** Why a policy is refused: for its ids, or for its number of approvals and its reviewers. */
  lemma PolicyRefused(st: Store, actor: Actor, policyId: Text, p: Policy)
    requires May(actor, "reviewer-policies:write")
    ensures
      var r := RegisterPolicy(st, actor, policyId, p).1;
      var named := IsId(policyId) && IsId(p.templateId);
      var known := forall reviewer | reviewer in p.reviewers :: IsId(reviewer);
      && (r == Err(InvalidId) <==> !named || (1 <= p.requiredApprovals && p.requiredApprovals <= 10 && !known))
      && (r.Err? ==> r.error == InvalidId || r.error == InvalidPolicy)
  {
    hide IsId, Key, Refusal;
    RefusalExactly(actor, "reviewer-policies:write");
    forall i | 0 <= i < |p.reviewers| ensures p.reviewers[i] in p.reviewers {}
  }

  lemma TemplateExactly(st: Store, actor: Actor, name: Text, template: Template)
    ensures
      var (next, r) := RegisterTemplate(st, actor, name, template);
      && (r.Ok? <==> May(actor, "templates:write") && template.published && Key(actor.tenantId, name) !in st.templates)
      && next == if r.Ok? then st.(templates := st.templates[Key(actor.tenantId, name) := template]) else st
  {
    hide IsId, Key, Refusal;
    RefusalExactly(actor, "templates:write");
  }

  lemma IssuerExactly(st: Store, actor: Actor, issuerId: Text, profile: Profile)
    ensures
      var (next, r) := RegisterIssuer(st, actor, issuerId, profile);
      && (r.Ok? <==> May(actor, "issuers:write"))
      && next == if r.Ok? then st.(issuers := st.issuers[Key(actor.tenantId, issuerId) := profile]) else st
  {
    hide IsId, Key, Refusal;
    RefusalExactly(actor, "issuers:write");
  }

  // ---------------------------------------------------------------- requests

  /** What the draft names is registered for the tenant and fits together. */
  predicate Fits(st: Store, tenantId: Text, d: Draft) {
    var (template, issuer, policy) :=
      (Key(tenantId, d.templateId + Ascii(":v") + d.templateVersion), Key(tenantId, d.issuerId),
        Key(tenantId, d.policyId));
    && template in st.templates && issuer in st.issuers && policy in st.policies
    && d.templateId in st.issuers[issuer].templates && st.policies[policy].templateId == d.templateId
    && d.format in st.templates[template].formats
  }

  /** A credential to be replaced is there, of the same issuer and template. */
  predicate MayReplace(st: Store, tenantId: Text, d: Draft) {
    d.previousId.Some? ==>
      && Key(tenantId, d.previousId.value) in st.credentials
      && st.credentials[Key(tenantId, d.previousId.value)].templateId == d.templateId
      && st.credentials[Key(tenantId, d.previousId.value)].issuerId == d.issuerId
  }

  lemma RequestExactly(st: Store, actor: Actor, d: Draft, portExists: bool, clock: Clock)
    ensures
      var (owner, next, r) := (Key(actor.tenantId, d.sessionId), CreateRequest(st, actor, d, portExists, clock).0,
                               CreateRequest(st, actor, d, portExists, clock).1);
      && (r.Ok? <==>
            && May(actor, "issuance:write")
            && IsId(d.sessionId) && IsId(d.issuerId) && IsId(d.templateId) && IsId(d.policyId)
            && clock(0) < d.expiresAt && Fits(st, actor.tenantId, d) && portExists && MayReplace(st, actor.tenantId, d)
            && owner !in st.sessions)
      && next == if r.Ok?
                 then st.(sessions := st.sessions[owner :=
                        Session(actor.tenantId, d.sessionId, d.issuerId, d.templateId, d.templateVersion, d.format,
                                d.policyId, PendingReview, [], d.expiresAt)])
                 else st
  {
    hide IsId, Key, Refusal, Ascii;
    VersionMark();
    RefusalExactly(actor, "issuance:write");
  }

  function Approvals(reviews: seq<Review>): nat {
    if |reviews| == 0 then 0
    else Approvals(reviews[..|reviews| - 1]) + if reviews[|reviews| - 1].approved then 1 else 0
  }

  lemma {:induction false} ApprovalsFromTheFront(reviews: seq<Review>)
    ensures CountApproved(reviews) == Approvals(reviews)
    decreases |reviews|
  {
    if |reviews| == 1 {
      assert reviews[1..] == [] && reviews[..0] == [];
    } else if |reviews| > 1 {
      var (front, tail) := (reviews[..|reviews| - 1], reviews[1..]);
      ApprovalsFromTheFront(tail);
      ApprovalsFromTheFront(front);
      assert tail[..|tail| - 1] == front[1..];
      ApprovalsFromTheFront(front[1..]);
    }
  }

  /** Who may review, and what one review does. */
  predicate MayReview(st: Store, actor: Actor, sessionId: Text, now: int) {
    && May(actor, "issuance:review") && LiveAt(st, actor.tenantId, sessionId, now)
    && var s := st.sessions[Key(actor.tenantId, sessionId)];
    && s.phase == PendingReview && Key(actor.tenantId, s.policyId) in st.policies
    && actor.principalId in st.policies[Key(actor.tenantId, s.policyId)].reviewers
    && forall r | r in s.reviews :: r.reviewerId != actor.principalId
  }

  lemma ReviewOkExactly(st: Store, actor: Actor, sessionId: Text, approve: bool, clock: Clock)
    ensures ReviewIssuance(st, actor, sessionId, approve, clock).1.Ok? <==> MayReview(st, actor, sessionId, clock(0))
    ensures MayReview(st, actor, sessionId, clock(0)) ==>
      var owner := Key(actor.tenantId, sessionId);
      var s := st.sessions[owner];
      var reviews := s.reviews + [Review(actor.principalId, approve, clock(1))];
      var phase := if !approve then Rejected
                   else if Approvals(reviews) >= st.policies[Key(actor.tenantId, s.policyId)].requiredApprovals then
                     Approved
                   else PendingReview;
      ReviewIssuance(st, actor, sessionId, approve, clock).0
      == st.(sessions := st.sessions[owner := s.(reviews := reviews, phase := phase)])
  {
    hide IsId, Key, Refusal, CountApproved, Approvals, LiveSession;
    RefusalExactly(actor, "issuance:review");
    LiveExactly(st, actor.tenantId, sessionId, clock(0));
    if MayReview(st, actor, sessionId, clock(0)) {
      ApprovalsFromTheFront(st.sessions[Key(actor.tenantId, sessionId)].reviews + [Review(actor.principalId, approve,
        clock(1))]);
    }
  }

  // ------------------------------------------------------------------ offers

  /** A client and an address for the authorization-code flow, neither for the other. */
  predicate ClientFits(kind: GrantKind, clientId: Option<Text>, redirectUri: Option<Text>) {
    match kind
    case AuthorizationCode => clientId.Some? && redirectUri.Some?
    case PreAuthorizedCode => clientId.None? && redirectUri.None?
  }

  lemma OfferExactly(st: Store, actor: Actor, sessionId: Text, kind: GrantKind, ttl: int, clientId: Option<Text>,
                     redirectUri: Option<Text>, key: KeyAnswers, draws: Draws, clock: Clock)
    ensures
      var (owner, next, r) := (Key(actor.tenantId, sessionId),
                               CreateOffer(st, actor, sessionId, kind, ttl, clientId, redirectUri, key, draws, clock).0,
                               CreateOffer(st, actor, sessionId, kind, ttl, clientId, redirectUri, key, draws,
                                 clock).1);
      && (r.Ok? <==>
            && May(actor, "offers:write") && 1000 <= ttl <= 600000 && LiveAt(st, actor.tenantId, sessionId, clock(0))
            && st.sessions[owner].phase == Approved && MayIssue(st, st.sessions[owner]) && key.active && key.trusted
            && CanDraw(st, draws) && ClientFits(kind, clientId, redirectUri))
      && (r.Ok? ==>
            && UniqueToken(st, draws, 0) == r
            && next == st.(sessions := st.sessions[owner := st.sessions[owner].(phase := Offered)],
                           grants := st.grants[r.value :=
                             Grant(actor.tenantId, st.sessions[owner].sessionId, kind, clock(1) + ttl, clientId,
                               redirectUri, None)]))
  {
    hide IsId, Key, Refusal, UniqueToken, Authorized, LiveSession, MayIssue;
    RefusalExactly(actor, "offers:write");
    LiveExactly(st, actor.tenantId, sessionId, clock(0));
    if LiveAt(st, actor.tenantId, sessionId, clock(0)) {
      AuthorizedExactly(st, st.sessions[Key(actor.tenantId, sessionId)], key);
    }
  }

  /** An offer is traded for a code by the client and for the address it was made for, before it expires. */
  lemma AuthorizeExactly(st: Store, actor: Actor, tenantId: Text, issuerState: Text, clientId: Text, redirectUri: Text,
                         draws: Draws, clock: Clock)
    ensures
      var (spent, r) := (ConsumeGrant(st, issuerState, tenantId, AuthorizationCode, clock(0)).0,
                         Authorize(st, actor, tenantId, issuerState, clientId, redirectUri, draws, clock).1);
      r.Ok? <==>
        && actor.tenantId == tenantId && May(actor, "oid4vci:authorize")
        && OpenFor(st, issuerState, tenantId, AuthorizationCode) && clock(0) < st.grants[issuerState].expiresAt
        && st.grants[issuerState].clientId == Some(clientId) && st.grants[issuerState].redirectUri == Some(redirectUri)
        && CanDraw(spent, draws)
    ensures
      var (next, r) := Authorize(st, actor, tenantId, issuerState, clientId, redirectUri, draws, clock);
      r.Ok? ==>
        var offer := st.grants[issuerState];
        next == st.(grants := st.grants[issuerState := offer.(consumedAt := Some(clock(0)))][r.value :=
          Grant(tenantId, offer.sessionId, AuthorizationCode,
                if offer.expiresAt < clock(1) + 60000 then offer.expiresAt else clock(1) + 60000,
                Some(clientId), Some(redirectUri), None)])
  {
    hide IsId, Refusal, UniqueToken, ConsumeGrant;
    RefusalExactly(actor, "oid4vci:authorize");
    GrantExactly(st, issuerState, tenantId, AuthorizationCode, clock(0));
  }

  /** Nothing is done for an id out of pattern or for a tenant that is not the actor's. */
  lemma AuthorizeRefused(st: Store, actor: Actor, tenantId: Text, issuerState: Text, clientId: Text, redirectUri: Text,
                         draws: Draws, clock: Clock)
    ensures
      var all := Authorize(st, actor, tenantId, issuerState, clientId, redirectUri, draws, clock);
      && (!IsId(tenantId) ==> all == (st, Err(InvalidId)))
      && (IsId(tenantId) && actor.tenantId != tenantId ==> all == (st, Err(TenantMismatch)))
  {
    hide IsId, Refusal, UniqueToken, ConsumeGrant;
  }

  /** A code is traded for an access token in its own flow, by the client and with the address it was made
      for, before it expires. */
  lemma ExchangeExactly(st: Store, tenantId: Text, code: Text, client: Option<(Text, Text)>, draws: Draws, clock: Clock)
    ensures
      var kind := if client.None? then PreAuthorizedCode else AuthorizationCode;
      var spent := ConsumeGrant(st, code, tenantId, kind, clock(0)).0;
      ExchangeToken(st, tenantId, code, client, draws, clock).1.Ok? <==>
        && OpenFor(st, code, tenantId, kind) && clock(0) < st.grants[code].expiresAt
        && (client.Some? ==>
              st.grants[code].clientId == Some(client.value.0) && st.grants[code].redirectUri == Some(client.value.1))
        && CanDraw(spent, draws)
    ensures
      var (next, r) := ExchangeToken(st, tenantId, code, client, draws, clock);
      r.Ok? ==>
        var grant := st.grants[code];
        next == st.(grants := st.grants[code := grant.(consumedAt := Some(clock(0)))],
                    tokens := st.tokens[r.value :=
                      AccessToken(tenantId, grant.sessionId,
                                  if grant.expiresAt < clock(1) + 60000 then grant.expiresAt
                                     else clock(1) + 60000, None)])
  {
    hide UniqueToken, ConsumeGrant;
    GrantExactly(st, code, tenantId, if client.None? then PreAuthorizedCode else AuthorizationCode, clock(0));
  }

  // ---------------------------------------------------------------- issuance

  /** All that a credential takes. */
  predicate MayReceive(st: Store, tenantId: Text, accessToken: Text, configurationOk: bool, ports: Ports,
                       draws: nat -> Draws, clock: Clock)
  {
    && OpenToken(st, accessToken, tenantId) && clock(0) < st.tokens[accessToken].expiresAt
    && LiveAt(st, tenantId, st.tokens[accessToken].sessionId, clock(1))
    && var s := st.sessions[Key(tenantId, st.tokens[accessToken].sessionId)];
    && s.phase == Offered && configurationOk && MayIssue(st, s) && ports.key.active && ports.key.trusted
    && ports.proofValid && ports.formatPort && ports.signing == Signed
    && CanDraw(st, draws(0)) && CanDraw(st, draws(1)) && CanDraw(st, draws(2))
  }

  lemma {:induction false} DrawReads(st: Store, next: Store, draws: Draws, attempt: nat)
    requires next.grants.Keys == st.grants.Keys && next.tokens.Keys == st.tokens.Keys
    ensures UniqueToken(next, draws, attempt) == UniqueToken(st, draws, attempt)
    decreases 4 - attempt
  {
    hide IsToken;
    if attempt < 4 {
      DrawReads(st, next, draws, attempt + 1);
    }
  }

  /** A credential is issued exactly then, and answered exactly when its status could be published, too. */
  lemma IssueExactly(st: Store, tenantId: Text, accessToken: Text, configurationOk: bool, ports: Ports,
                     draws: nat -> Draws, clock: Clock)
    ensures
      var (next, r) := IssueCredential(st, tenantId, accessToken, configurationOk, ports, draws, clock);
      var may := MayReceive(st, tenantId, accessToken, configurationOk, ports, draws, clock);
      && (|next.issued| > |st.issued| <==> may)
        && (!may ==> next.issued == st.issued && next.credentials == st.credentials)
      && (r.Ok? <==> may && ports.published)
  {
    hide IsId, Key, UniqueToken, LiveSession, ConsumeAccessToken, MayIssue, IssueWith;
    AccessTokenExactly(st, accessToken, tenantId, clock(0));
    var (spent, token) := ConsumeAccessToken(st, accessToken, tenantId, clock(0));
    if token.Ok? {
      IssueWithExactly(spent, token.value, configurationOk, ports, draws, clock);
      DrawReads(st, spent, draws(0), 0);
      DrawReads(st, spent, draws(1), 0);
      DrawReads(st, spent, draws(2), 0);
      if LiveAt(spent, tenantId, token.value.sessionId, clock(1)) {
        MayIssueReads(st, spent, spent.sessions[Key(tenantId, token.value.sessionId)]);
      }
    }
  }

  /** The same once the token is spent. */
  predicate MayReceiveWith(st: Store, token: AccessToken, configurationOk: bool, ports: Ports, draws: nat -> Draws,
                           clock: Clock)
  {
    && LiveAt(st, token.tenantId, token.sessionId, clock(1))
    && var s := st.sessions[Key(token.tenantId, token.sessionId)];
    && s.phase == Offered && configurationOk && MayIssue(st, s) && ports.key.active && ports.key.trusted
    && ports.proofValid && ports.formatPort && ports.signing == Signed
    && CanDraw(st, draws(0)) && CanDraw(st, draws(1)) && CanDraw(st, draws(2))
  }

  lemma IssueWithExactly(st: Store, token: AccessToken, configurationOk: bool, ports: Ports, draws: nat -> Draws,
                         clock: Clock)
    ensures
      var (next, r) := IssueWith(st, token, configurationOk, ports, draws, clock);
      var may := MayReceiveWith(st, token, configurationOk, ports, draws, clock);
      && (|next.issued| > |st.issued| <==> may)
        && (!may ==> next.issued == st.issued && next.credentials == st.credentials)
      && (r.Ok? <==> may && ports.published)
  {
    hide Key, UniqueToken, LiveSession, LiveAt, Authorized, MayIssue, AccessToken.Owner, IssueWith;
    LiveExactly(st, token.tenantId, token.sessionId, clock(1));
    var (st1, live) := LiveSession(st, token.tenantId, token.sessionId, clock(1));
    if live.Ok? {
      LiveIn(st, token.tenantId, token.sessionId, clock(1));
      AuthorizedExactly(st, live.value, ports.key);
    }
    if live.Ok? && live.value.phase == Offered && configurationOk && Authorized(st, live.value, ports.key).Ok? {
      IssueAllowed(st, token, ports, draws, clock);
    } else {
      IssueRefused(st, token, configurationOk, ports, draws, clock);
    }
  }

  /** Session and policy do not allow it. */
  lemma IssueRefused(st: Store, token: AccessToken, configurationOk: bool, ports: Ports, draws: nat -> Draws,
                     clock: Clock)
    requires
      var live := LiveSession(st, token.tenantId, token.sessionId, clock(1)).1;
      !(live.Ok? && live.value.phase == Offered && configurationOk && Authorized(st, live.value, ports.key).Ok?)
    ensures
      var (next, r) := IssueWith(st, token, configurationOk, ports, draws, clock);
      next.issued == st.issued && next.credentials == st.credentials && r.Err?
  {
    hide Key, UniqueToken, LiveSession, LiveAt, Authorized, AccessToken.Owner;
    LiveExactly(st, token.tenantId, token.sessionId, clock(1));
  }

  /** They do, and the rest decides. */
  lemma IssueAllowed(st: Store, token: AccessToken, ports: Ports, draws: nat -> Draws, clock: Clock)
    requires
      var live := LiveSession(st, token.tenantId, token.sessionId, clock(1)).1;
      live.Ok? && live.value.phase == Offered && Authorized(st, live.value, ports.key).Ok?
    ensures
      var (next, r) := IssueWith(st, token, true, ports, draws, clock);
      var may := ports.proofValid && ports.formatPort && ports.signing == Signed
                 && CanDraw(st, draws(0)) && CanDraw(st, draws(1)) && CanDraw(st, draws(2));
      && (|next.issued| > |st.issued| <==> may)
      && (!may ==> next.issued == st.issued && next.credentials == st.credentials)
        && (r.Ok? <==> may && ports.published)
  {
    hide Key, UniqueToken, LiveSession, LiveAt, Authorized, CredentialId, WithPhase, Recorded, AccessToken.Owner;
    TokenOwner(token);
    LiveExactly(st, token.tenantId, token.sessionId, clock(1));
    LiveIn(st, token.tenantId, token.sessionId, clock(1));
    var live := LiveSession(st, token.tenantId, token.sessionId, clock(1)).1;
    PhaseOnly(st, token.Owner(), SigningAmbiguous);
    if UniqueToken(st, draws(0), 0).Ok? {
      var policy, name := Authorized(st, live.value, ports.key).value, CredentialId(UniqueToken(st, draws(0), 0).value);
      RecordGrows(st, live.value, name, policy, clock(2));
      PhaseOnly(Recorded(st, live.value, name, policy, clock(2)), token.Owner(), Issued);
    }
  }

  lemma TokenOwner(token: AccessToken)
    ensures token.Owner() == Key(token.tenantId, token.sessionId)
  {}

  lemma LiveIn(st: Store, tenantId: Text, sessionId: Text, now: int)
    requires LiveAt(st, tenantId, sessionId, now)
    ensures Key(tenantId, sessionId) in st.sessions
  {}

  lemma PhaseOnly(st: Store, owner: Text, phase: Phase)
    requires owner in st.sessions
    ensures WithPhase(st, owner, phase).issued == st.issued && WithPhase(st, owner, phase).credentials == st.credentials
  {}

  lemma RecordGrows(st: Store, session: Session, credentialId: Text, policy: Policy, issuedAt: int)
    ensures
      var next := Recorded(st, session, credentialId, policy, issuedAt);
      |next.issued| == |st.issued| + 1 && next.sessions == st.sessions
  {
    hide Key;
  }

  lemma MayIssueReads(st: Store, next: Store, s: Session)
    requires next.templates == st.templates && next.issuers == st.issuers && next.policies == st.policies
    ensures MayIssue(next, s) == MayIssue(st, s)
  {
    hide Key, EnoughApprovals, Ascii;
  }

  /** The record of the credential, the history, and the session's phase. */
  lemma IssueEffect(st: Store, tenantId: Text, accessToken: Text, configurationOk: bool, ports: Ports,
                    draws: nat -> Draws, clock: Clock)
    requires MayReceive(st, tenantId, accessToken, configurationOk, ports, draws, clock)
    ensures
      var next := IssueCredential(st, tenantId, accessToken, configurationOk, ports, draws, clock).0;
      var owner := Key(tenantId, st.tokens[accessToken].sessionId);
      var s := st.sessions[owner];
      var drawn := UniqueToken(st, draws(0), 0).value;
      var name := Ascii("cred-") + if |drawn| <= 24 then drawn else drawn[..24];
      && next.credentials == st.credentials[Key(s.tenantId, name) :=
           Credential(s.tenantId, name, s.issuerId, s.templateId, clock(2))]
      && next.issued == st.issued + [Issuance(s.Owner(), name, st.policies[Key(s.tenantId, s.policyId)], s.reviews)]
      && next.sessions == (if ports.published then st.sessions[owner := s.(phase := Issued)] else st.sessions)
      && next.tokens == st.tokens[accessToken := st.tokens[accessToken].(consumedAt := Some(clock(0)))]
      && next.grants == st.grants
  {
    hide IsId, Key, UniqueToken, LiveSession, ConsumeAccessToken, Authorized, MayIssue, Ascii, Session.Owner;
    AccessTokenExactly(st, accessToken, tenantId, clock(0));
    var (spent, token) := ConsumeAccessToken(st, accessToken, tenantId, clock(0));
    LiveExactly(spent, tenantId, token.value.sessionId, clock(1));
    DrawReads(st, spent, draws(0), 0);
    DrawReads(st, spent, draws(1), 0);
    DrawReads(st, spent, draws(2), 0);
    assert token.value.Owner() == Key(tenantId, token.value.sessionId);
    var s := spent.sessions[token.value.Owner()];
    AuthorizedExactly(spent, s, ports.key);
    MayIssueReads(st, spent, s);
  }

  /** Why a session becomes ambiguous: the signature may exist, or is not what was asked for. */
  lemma AmbiguousExactly(st: Store, tenantId: Text, accessToken: Text, configurationOk: bool, ports: Ports,
                         draws: nat -> Draws, clock: Clock)
    ensures IssueCredential(st, tenantId, accessToken, configurationOk, ports, draws, clock).1
      == Err(SigningResultAmbiguous)
      <==> (ports.signing == Ambiguous || ports.signing == Mismatched)
           && MayReceive(st, tenantId, accessToken, configurationOk, ports.(signing := Signed), draws, clock)
    ensures
      var (next, r) := IssueCredential(st, tenantId, accessToken, configurationOk, ports, draws, clock);
      r == Err(SigningResultAmbiguous) ==>
        var owner := Key(tenantId, st.tokens[accessToken].sessionId);
        next.sessions == st.sessions[owner := st.sessions[owner].(phase := SigningAmbiguous)]
  {
    hide IsId, Key, UniqueToken, LiveSession, ConsumeAccessToken, Authorized, CredentialId, MayIssue;
    AccessTokenExactly(st, accessToken, tenantId, clock(0));
    var (spent, token) := ConsumeAccessToken(st, accessToken, tenantId, clock(0));
    OtherErrors(st, spent, accessToken, tenantId, clock);
    if token.Ok? {
      LiveExactly(spent, tenantId, token.value.sessionId, clock(1));
      DrawReads(st, spent, draws(0), 0);
      DrawReads(st, spent, draws(1), 0);
      DrawReads(st, spent, draws(2), 0);
      assert token.value.Owner() == Key(tenantId, token.value.sessionId);
      if LiveAt(spent, tenantId, token.value.sessionId, clock(1)) {
        var s := spent.sessions[token.value.Owner()];
        AuthorizedExactly(spent, s, ports.key);
        AuthorizedErrors(spent, s, ports.key);
        MayIssueReads(st, spent, s);
      }
    }
  }

  lemma OtherErrors(st: Store, spent: Store, accessToken: Text, tenantId: Text, clock: Clock)
    ensures ConsumeAccessToken(st, accessToken, tenantId, clock(0)).1 != Err(SigningResultAmbiguous)
    ensures forall sessionId :: LiveSession(spent, tenantId, sessionId, clock(1)).1 != Err(SigningResultAmbiguous)
  {
    hide Key, IsId;
  }

  lemma AuthorizedErrors(st: Store, s: Session, key: KeyAnswers)
    ensures Authorized(st, s, key) != Err(SigningResultAmbiguous)
  {
    hide Key, Approvers, TemplateKey;
  }
}
