/** The online evaluators of a snapshot, the offline one, and where the two agree. */
module TrustEvaluation {
  import opened Strings
  import opened Wrappers
  import opened TrustSnapshot

  datatype Kind = Verified | Rejected | Indeterminate

  datatype Code =
    | TrustVerified | StatusValid | CredentialVerified
    | IssuerUnknown | SchemaUnknown | KeyUnknown | StatusUnknown
    | IssuerSuspended | IssuerRevoked | SchemaSuspended | SchemaRevoked
    | KeyRevoked | KeyNotAuthorizedAtIssuance | CredentialSuspended | CredentialRevoked
    | SnapshotMissing | SnapshotStale | SnapshotInvalid | SnapshotFresh | RegistryUnavailable

  /** `evidence` carries the snapshot's id and expiry, when a snapshot was used. */
  datatype Decision = Decision(kind: Kind, code: Code, evidence: Option<(Text, int)>)

  datatype Request = Request(
    tenantId: Text, jurisdiction: Text, issuerId: Text, schemaId: Text, keyId: Text, statusId: Text, issuedAt: int)

  function Evidence(s: Snapshot): Option<(Text, int)> {
    Some((s.snapshotId, s.expiresAt))
  }

  predicate InScope(s: Snapshot, q: Request) {
    s.tenantId == q.tenantId && s.jurisdiction == q.jurisdiction
  }

  predicate Fresh(s: Snapshot, now: int) {
    s.issuedAt <= now < s.expiresAt
  }

  function FindSchema(schemas: seq<Schema>, id: Text): (r: Option<Schema>)
    ensures r.Some? ==> r.value in schemas && r.value.schemaId == id
    ensures r.None? <==> forall x | x in schemas :: x.schemaId != id
  {
    if |schemas| == 0 then None
    else if schemas[0].schemaId == id then Some(schemas[0])
    else FindSchema(schemas[1..], id)
  }

  function FindStatus(statuses: seq<StatusEntry>, issuerId: Text, statusId: Text): (r: Option<StatusEntry>)
    ensures r.Some? ==> r.value in statuses && r.value.issuerId == issuerId && r.value.statusId == statusId
    ensures r.None? <==> forall x | x in statuses :: !(x.issuerId == issuerId && x.statusId == statusId)
  {
    if |statuses| == 0 then None
    else if statuses[0].issuerId == issuerId && statuses[0].statusId == statusId then Some(statuses[0])
    else FindStatus(statuses[1..], issuerId, statusId)
  }

  // ------------------------------------------------------------------ online

  /** `evaluateTrustSnapshot`. */
  function EvaluateTrust(s: Snapshot, q: Request, now: int): Decision {
    if !InScope(s, q) then Decision(Indeterminate, SnapshotInvalid, None)
    else if s.issuedAt > now || s.expiresAt <= now then Decision(Indeterminate, SnapshotStale, Evidence(s))
    else
      match FindIssuer(s.issuers, q.issuerId)
      case None => Decision(Indeterminate, IssuerUnknown, Evidence(s))
      case Some(issuer) =>
        if issuer.status == Suspended then Decision(Rejected, IssuerSuspended, Evidence(s))
        else if issuer.status == Revoked then Decision(Rejected, IssuerRevoked, Evidence(s))
        else
          match FindSchema(issuer.schemas, q.schemaId)
          case None => Decision(Indeterminate, SchemaUnknown, Evidence(s))
          case Some(schema) =>
            if schema.status == Suspended then Decision(Rejected, SchemaSuspended, Evidence(s))
            else if schema.status == Revoked then Decision(Rejected, SchemaRevoked, Evidence(s))
            else EvaluateKey(s, FindKey(issuer.keys, q.keyId), q.issuedAt)
  }

  function EvaluateKey(s: Snapshot, found: Option<Key>, issuedAt: int): Decision {
    match found
    case None => Decision(Indeterminate, KeyUnknown, Evidence(s))
    case Some(key) =>
      if key.status == Withdrawn then Decision(Rejected, KeyRevoked, Evidence(s))
      else if !IsSafeInteger(issuedAt) || issuedAt < key.from || (key.until.Some? && issuedAt >= key.until.value) then
        Decision(Rejected, KeyNotAuthorizedAtIssuance, Evidence(s))
      else Decision(Verified, TrustVerified, Evidence(s))
  }

  /** `evaluateStatusSnapshot`. */
  function EvaluateStatus(s: Snapshot, q: Request, now: int): Decision {
    if !InScope(s, q) then Decision(Indeterminate, SnapshotInvalid, None)
    else if s.issuedAt > now || s.expiresAt <= now then Decision(Indeterminate, SnapshotStale, Evidence(s))
    else
      match FindIssuer(s.issuers, q.issuerId)
      case None => Decision(Indeterminate, IssuerUnknown, Evidence(s))
      case Some(issuer) =>
        if issuer.status == Suspended then Decision(Rejected, IssuerSuspended, Evidence(s))
        else if issuer.status == Revoked then Decision(Rejected, IssuerRevoked, Evidence(s))
        else EvaluateEntry(s, FindStatus(s.statuses, q.issuerId, q.statusId))
  }

  function EvaluateEntry(s: Snapshot, found: Option<StatusEntry>): Decision {
    match found
    case None => Decision(Indeterminate, StatusUnknown, Evidence(s))
    case Some(entry) =>
      if entry.status == OnHold then Decision(Rejected, CredentialSuspended, Evidence(s))
      else if entry.status == Ended then Decision(Rejected, CredentialRevoked, Evidence(s))
      else Decision(Verified, StatusValid, Evidence(s))
  }

  /** `SignedSnapshotCache.evaluateCredential` once a snapshot is resolved. */
  function EvaluateCredential(s: Snapshot, q: Request, now: int): Decision {
    var trust := EvaluateTrust(s, q, now);
    if trust.kind != Verified then trust
    else
      var status := EvaluateStatus(s, q, now);
      if status.kind != Verified then status else Decision(Verified, CredentialVerified, Evidence(s))
  }

  // ----------------------------------------------------------------- offline

  function IssuerRefusal(status: Authorization): Code {
    if status == Suspended then IssuerSuspended else IssuerRevoked
  }

  function SchemaRefusal(status: Authorization): Code {
    if status == Suspended then SchemaSuspended else SchemaRevoked
  }

  function CredentialRefusal(status: CredentialStatus): Code {
    if status == OnHold then CredentialSuspended else CredentialRevoked
  }

  /** `OfflineTrustStatusCache.evaluateCredential`: one pass, and freshness is tested before scope. */
  function EvaluateOffline(cached: Option<Snapshot>, q: Request, now: int): Decision {
    match cached
    case None => Decision(Indeterminate, SnapshotMissing, None)
    case Some(s) =>
      if s.issuedAt > now || s.expiresAt <= now then Decision(Indeterminate, SnapshotStale, Evidence(s))
      else if s.tenantId != q.tenantId || s.jurisdiction != q.jurisdiction then
        Decision(Indeterminate, SnapshotInvalid, None)
      else
        var issuer := FindIssuer(s.issuers, q.issuerId);
        if issuer.None? then Decision(Indeterminate, IssuerUnknown, Evidence(s))
        else if issuer.value.status != Active then Decision(Rejected, IssuerRefusal(issuer.value.status), Evidence(s))
        else
          var schema := FindSchema(issuer.value.schemas, q.schemaId);
          if schema.None? then Decision(Indeterminate, SchemaUnknown, Evidence(s))
          else if schema.value.status != Active then Decision(Rejected, SchemaRefusal(schema.value.status), Evidence(s))
          else
            var key := FindKey(issuer.value.keys, q.keyId);
            if key.None? then Decision(Indeterminate, KeyUnknown, Evidence(s))
            else if key.value.status == Withdrawn then Decision(Rejected, KeyRevoked, Evidence(s))
            else if q.issuedAt < key.value.from || (key.value.until.Some? && q.issuedAt >= key.value.until.value) then
              Decision(Rejected, KeyNotAuthorizedAtIssuance, Evidence(s))
            else
              var status := FindStatus(s.statuses, q.issuerId, q.statusId);
              if status.None? then Decision(Indeterminate, StatusUnknown, Evidence(s))
              else if status.value.status != Good then
                Decision(Rejected, CredentialRefusal(status.value.status), Evidence(s))
              else Decision(Verified, CredentialVerified, Evidence(s))
  }

  // --------------------------------------------------------------- agreement

  /** The key the request names, when issuer and schema are active and the key is not revoked. */
  function LiveKey(s: Snapshot, q: Request): Option<Key> {
    var issuer :- FindIssuer(s.issuers, q.issuerId);
    var schema :- FindSchema(issuer.schemas, q.schemaId);
    var key :- FindKey(issuer.keys, q.keyId);
    if issuer.status == Active && schema.status == Active && key.status != Withdrawn then Some(key) else None
  }

  predicate Within(key: Key, t: int) {
    key.from <= t && (key.until.Some? ==> t < key.until.value)
  }

  /** Where the two evaluators part: a stale snapshot of another scope, and an issuance time that is
      no safe integer but lies inside the key's interval, which only the online one refuses. */
  predicate Disputed(s: Snapshot, q: Request, now: int) {
    || (!InScope(s, q) && !Fresh(s, now))
    || (InScope(s, q) && Fresh(s, now) && !IsSafeInteger(q.issuedAt)
        && LiveKey(s, q).Some? && Within(LiveKey(s, q).value, q.issuedAt))
  }

  /** The evaluators give the same decision, code and evidence exactly where nothing is disputed. */
  lemma EvaluatorsAgree(s: Snapshot, q: Request, now: int)
    ensures EvaluateOffline(Some(s), q, now) == EvaluateCredential(s, q, now) <==> !Disputed(s, q, now)
  {
    hide FindIssuer, FindSchema, FindKey, FindStatus;
  }

  /** In scope, every safe issuance time is judged alike; out of scope nothing is decided. */
  lemma SafeTimesAgree(s: Snapshot, q: Request, now: int)
    ensures InScope(s, q) && IsSafeInteger(q.issuedAt)
      ==> EvaluateOffline(Some(s), q, now) == EvaluateCredential(s, q, now)
    ensures !InScope(s, q) ==>
      EvaluateOffline(Some(s), q, now).kind == EvaluateCredential(s, q, now).kind == Indeterminate
  {
    EvaluatorsAgree(s, q, now);
  }

  /** Even where they part, the offline evaluator never turns a verified credential down. */
  lemma OnlineVerifiedIsOfflineVerified(s: Snapshot, q: Request, now: int)
    ensures EvaluateCredential(s, q, now).kind == Verified ==> EvaluateOffline(Some(s), q, now).kind == Verified
  {
    EvaluatorsAgree(s, q, now);
  }

  /** Exactly when a credential is verified. */
  lemma VerifiedExactly(s: Snapshot, q: Request, now: int)
    ensures EvaluateCredential(s, q, now).kind == Verified <==>
      && InScope(s, q) && Fresh(s, now) && IsSafeInteger(q.issuedAt)
      && LiveKey(s, q).Some? && Within(LiveKey(s, q).value, q.issuedAt)
      && FindStatus(s.statuses, q.issuerId, q.statusId).Some?
      && FindStatus(s.statuses, q.issuerId, q.statusId).value.status == Good
  {
    hide FindIssuer, FindSchema, FindKey, FindStatus;
  }

  // -------------------------------------------------------- the single answers

  predicate Current(s: Snapshot, q: Request, now: int) {
    s.tenantId == q.tenantId && s.jurisdiction == q.jurisdiction && s.issuedAt <= now && now < s.expiresAt
  }

  /** The schema found, of an active issuer found. */
  function SchemaOf(s: Snapshot, q: Request): Option<Schema> {
    var issuer :- FindIssuer(s.issuers, q.issuerId);
    if issuer.status == Active then FindSchema(issuer.schemas, q.schemaId) else None
  }

  /** The key found, of an active issuer with the schema active. */
  function KeyOf(s: Snapshot, q: Request): Option<Key> {
    var issuer :- FindIssuer(s.issuers, q.issuerId);
    var schema :- SchemaOf(s, q);
    if schema.status == Active then FindKey(issuer.keys, q.keyId) else None
  }

  /** The time is a safe integer in the key's interval, its end excluded. */
  predicate AuthorizedThen(key: Key, t: int) {
    -9007199254740991 <= t <= 9007199254740991 && key.from <= t && (key.until.Some? ==> t < key.until.value)
  }

  /** Trust is verified exactly when issuer, schema and key are found and in force at the issuance time. */
  lemma TrustVerifiedExactly(s: Snapshot, q: Request, now: int)
    ensures EvaluateTrust(s, q, now).kind == Verified <==>
      && Current(s, q, now) && KeyOf(s, q).Some? && KeyOf(s, q).value.status in {Usable, Retired}
      && AuthorizedThen(KeyOf(s, q).value, q.issuedAt)
  {
    hide FindIssuer, FindSchema, FindKey;
  }

  /** And rejected exactly when one of them is found and not in force; else nothing is decided. */
  lemma TrustRejectedExactly(s: Snapshot, q: Request, now: int)
    ensures EvaluateTrust(s, q, now).kind == Rejected <==>
      && Current(s, q, now)
      && (|| (FindIssuer(s.issuers, q.issuerId).Some? && FindIssuer(s.issuers, q.issuerId).value.status != Active)
          || (SchemaOf(s, q).Some? && SchemaOf(s, q).value.status != Active)
          || (KeyOf(s, q).Some?
              && (KeyOf(s, q).value.status == Withdrawn || !AuthorizedThen(KeyOf(s, q).value, q.issuedAt))))
  {
    hide FindIssuer, FindSchema, FindKey;
  }

  /** What each answer says: first about the snapshot and the issuer. */
  lemma IssuerCodesExactly(s: Snapshot, q: Request, now: int)
    ensures
      var (code, issuer) := (EvaluateTrust(s, q, now).code, FindIssuer(s.issuers, q.issuerId));
      && (code == SnapshotInvalid <==> !(s.tenantId == q.tenantId && s.jurisdiction == q.jurisdiction))
      && (code == SnapshotStale <==>
            s.tenantId == q.tenantId && s.jurisdiction == q.jurisdiction && !Current(s, q, now))
      && (code == IssuerUnknown <==> Current(s, q, now) && issuer.None?)
      && (code == IssuerSuspended <==> Current(s, q, now) && issuer.Some? && issuer.value.status == Suspended)
      && (code == IssuerRevoked <==> Current(s, q, now) && issuer.Some? && issuer.value.status == Revoked)
  {
    hide FindIssuer, FindSchema, FindKey;
  }

  /** Then about the schema of an active issuer. */
  lemma SchemaCodesExactly(s: Snapshot, q: Request, now: int)
    ensures
      var (code, issuer, schema) := (EvaluateTrust(s, q, now).code, FindIssuer(s.issuers, q.issuerId), SchemaOf(s, q));
      && (code == SchemaUnknown <==>
            Current(s, q, now) && issuer.Some? && issuer.value.status == Active && schema.None?)
      && (code == SchemaSuspended <==> Current(s, q, now) && schema.Some? && schema.value.status == Suspended)
      && (code == SchemaRevoked <==> Current(s, q, now) && schema.Some? && schema.value.status == Revoked)
  {
    hide FindIssuer, FindSchema, FindKey;
  }

  /** And then about the key. */
  lemma KeyCodesExactly(s: Snapshot, q: Request, now: int)
    ensures
      var (code, schema, key) := (EvaluateTrust(s, q, now).code, SchemaOf(s, q), KeyOf(s, q));
      && (code == KeyUnknown <==> Current(s, q, now) && schema.Some? && schema.value.status == Active && key.None?)
      && (code == KeyRevoked <==> Current(s, q, now) && key.Some? && key.value.status == Withdrawn)
      && (code == KeyNotAuthorizedAtIssuance <==>
            && Current(s, q, now) && key.Some? && key.value.status in {Usable, Retired}
            && !AuthorizedThen(key.value, q.issuedAt))
      && (code == TrustVerified <==> EvaluateTrust(s, q, now).kind == Verified)
  {
    hide FindIssuer, FindSchema, FindKey;
  }

  /** The entry found, of an active issuer found. */
  function EntryOf(s: Snapshot, q: Request): Option<StatusEntry> {
    var issuer :- FindIssuer(s.issuers, q.issuerId);
    if issuer.status == Active then FindStatus(s.statuses, q.issuerId, q.statusId) else None
  }

  /** A status is verified exactly when its issuer is found and active and its entry is found and good. */
  lemma StatusVerifiedExactly(s: Snapshot, q: Request, now: int)
    ensures EvaluateStatus(s, q, now).kind == Verified <==>
      Current(s, q, now) && EntryOf(s, q).Some? && EntryOf(s, q).value.status == Good
  {
    hide FindIssuer, FindStatus;
  }

  /** And rejected exactly when issuer or entry is found and not so; else nothing is decided. */
  lemma StatusRejectedExactly(s: Snapshot, q: Request, now: int)
    ensures EvaluateStatus(s, q, now).kind == Rejected <==>
      && Current(s, q, now)
      && (|| (FindIssuer(s.issuers, q.issuerId).Some? && FindIssuer(s.issuers, q.issuerId).value.status != Active)
          || (EntryOf(s, q).Some? && EntryOf(s, q).value.status != Good))
  {
    hide FindIssuer, FindStatus;
  }

  lemma StatusCodesExactly(s: Snapshot, q: Request, now: int)
    ensures
      var (code, issuer, entry) := (EvaluateStatus(s, q, now).code, FindIssuer(s.issuers, q.issuerId), EntryOf(s, q));
      && (code == SnapshotInvalid <==> !(s.tenantId == q.tenantId && s.jurisdiction == q.jurisdiction))
      && (code == SnapshotStale <==>
            s.tenantId == q.tenantId && s.jurisdiction == q.jurisdiction && !Current(s, q, now))
      && (code == IssuerUnknown <==> Current(s, q, now) && issuer.None?)
      && (code == IssuerSuspended <==> Current(s, q, now) && issuer.Some? && issuer.value.status == Suspended)
      && (code == IssuerRevoked <==> Current(s, q, now) && issuer.Some? && issuer.value.status == Revoked)
      && (code == StatusUnknown <==>
            Current(s, q, now) && issuer.Some? && issuer.value.status == Active && entry.None?)
      && (code == CredentialSuspended <==> Current(s, q, now) && entry.Some? && entry.value.status == OnHold)
      && (code == CredentialRevoked <==> Current(s, q, now) && entry.Some? && entry.value.status == Ended)
      && (code == StatusValid <==> EvaluateStatus(s, q, now).kind == Verified)
  {
    hide FindIssuer, FindStatus;
  }

  /** A credential is judged by trust and then by status: it is rejected when either is and neither is
      undecided before, and every answer names the snapshot it comes from, unless that is of another scope. */
  lemma CredentialExactly(s: Snapshot, q: Request, now: int)
    ensures
      var (trust, status, both) := (EvaluateTrust(s, q, now), EvaluateStatus(s, q, now), EvaluateCredential(s, q, now));
      && (both.kind == Verified <==> trust.kind == Verified && status.kind == Verified)
      && (both.kind == Rejected <==> trust.kind == Rejected || (trust.kind == Verified && status.kind == Rejected))
      && both.code == (if trust.kind != Verified then trust.code
                       else if status.kind != Verified then status.code else CredentialVerified)
    ensures forall d | d in {EvaluateTrust(s, q, now), EvaluateStatus(s, q, now), EvaluateCredential(s, q, now)} ::
      d.evidence == if s.tenantId == q.tenantId && s.jurisdiction == q.jurisdiction
                    then Some((s.snapshotId, s.expiresAt)) else None
  {
    hide FindIssuer, FindSchema, FindKey, FindStatus;
  }

  /** An unsafe issuance time that the offline evaluator accepts and the online one refuses. */
  lemma UnsafeTimeDisagrees() returns (s: Snapshot, q: Request)
    ensures !IsSafeInteger(q.issuedAt)
    ensures EvaluateOffline(Some(s), q, 5).kind == Verified
    ensures EvaluateCredential(s, q, 5).kind == Rejected
  {
    var id := [0x61];
    var issuer := Issuer(id, Active, [Schema(id, Active)], [Key(id, Usable, 0, None)], []);
    s := Snapshot(id, id, id, 1, 1, 9, id, [issuer], [], [StatusEntry(id, id, Good, 0)]);
    q := Request(id, id, id, id, id, id, MAX_SAFE_INTEGER + 1);
  }
}
