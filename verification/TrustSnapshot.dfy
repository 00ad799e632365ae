/** Trust registry snapshots: strict parsing, what an accepted snapshot satisfies, and the payload that is signed. */
module TrustSnapshot {
  import opened Strings
  import opened Wrappers
  import opened Json
  import opened CanonicalForm
  import opened Records

  datatype Authorization = Active | Suspended | Revoked

  datatype KeyStatus = Usable | Retired | Withdrawn

  datatype CredentialStatus = Good | OnHold | Ended

  datatype Schema = Schema(schemaId: Text, status: Authorization)

  /** `until` is exclusive; a retired key has one. */
  datatype Key = Key(keyId: Text, status: KeyStatus, from: int, until: Option<int>)

  datatype Issuer = Issuer(issuerId: Text, status: Authorization, schemas: seq<Schema>, keys: seq<Key>,
    trustMarks: seq<Text>)

  datatype Rotation = Rotation(issuerId: Text, previousKeyId: Text, newKeyId: Text, rotatedAt: int)

  datatype StatusEntry = StatusEntry(issuerId: Text, statusId: Text, status: CredentialStatus, updatedAt: int)

  datatype Snapshot = Snapshot(
    snapshotId: Text, tenantId: Text, jurisdiction: Text, sequence: int, issuedAt: int, expiresAt: int,
    signingKeyId: Text, issuers: seq<Issuer>, rotations: seq<Rotation>, statuses: seq<StatusEntry>)

  // ----------------------------------------------------------------- readers
  // None is a thrown SNAPSHOT_INVALID.

  predicate IsText(t: Text, max: nat) {
    0 < |t| <= max && !HasControl(t)
  }

  predicate ScopeStart(c: CodeUnit) {
    0x41 <= c <= 0x5a || 0x61 <= c <= 0x7a || IsDigit(c)
  }

  /** `^[A-Za-z0-9][A-Za-z0-9._:-]{0,127}$` */
  predicate IsScope(t: Text) {
    && IsText(t, 128)
    && ScopeStart(t[0])
    && forall i | 0 <= i < |t| :: ScopeStart(t[i]) || t[i] in {0x2e, 0x5f, 0x3a, 0x2d}
  }

  predicate IsInteger(n: int, minimum: int) {
    IsSafeInteger(n) && n >= minimum
  }

  function ReadText(v: Json, max: nat): Option<Text> {
    if v.String? && IsText(v.s, max) then Some(v.s) else None
  }

  function ReadScope(v: Json): Option<Text> {
    if v.String? && IsScope(v.s) then Some(v.s) else None
  }

  function ReadInteger(v: Json, minimum: int): Option<int> {
    if v.Number? && IsInteger(v.n, minimum) then Some(v.n) else None
  }

  function AuthorizationName(a: Authorization): string {
    match a case Active => "active" case Suspended => "suspended" case Revoked => "revoked"
  }

  function KeyStatusName(k: KeyStatus): string {
    match k case Usable => "active" case Retired => "retired" case Withdrawn => "revoked"
  }

  function CredentialStatusName(c: CredentialStatus): string {
    match c case Good => "valid" case OnHold => "suspended" case Ended => "revoked"
  }

  function ReadAuthorization(v: Json): Option<Authorization> {
    if v == String(Ascii("active")) then Some(Active)
    else if v == String(Ascii("suspended")) then Some(Suspended)
    else if v == String(Ascii("revoked")) then Some(Revoked)
    else None
  }

  function ReadKeyStatus(v: Json): Option<KeyStatus> {
    if v == String(Ascii("active")) then Some(Usable)
    else if v == String(Ascii("retired")) then Some(Retired)
    else if v == String(Ascii("revoked")) then Some(Withdrawn)
    else None
  }

  function ReadCredentialStatus(v: Json): Option<CredentialStatus> {
    if v == String(Ascii("valid")) then Some(Good)
    else if v == String(Ascii("suspended")) then Some(OnHold)
    else if v == String(Ascii("revoked")) then Some(Ended)
    else None
  }

  function ReadList<T>(v: Json, max: nat, read: Json -> Option<T>): Option<seq<T>> {
    if v.Array? && |v.items| <= max then ReadAll(v.items, read) else None
  }

  /** `new Set(items).size === items.length` */
  predicate Distinct<T(==)>(items: seq<T>) {
    forall i, j | 0 <= i < j < |items| :: items[i] != items[j]
  }

  const SCHEMA_NAMES: seq<string> := ["schemaId", "status"]
  const KEY_NAMES: seq<string> := ["keyId", "status", "authorizedFrom"]
  const ISSUER_NAMES: seq<string> := ["issuerId", "status", "schemas", "keys", "trustMarks"]
  const ROTATION_NAMES: seq<string> := ["issuerId", "previousKeyId", "newKeyId", "rotatedAt"]
  const STATUS_NAMES: seq<string> := ["issuerId", "statusId", "status", "updatedAt"]
  const SNAPSHOT_NAMES: seq<string> := [
    "schemaVersion", "snapshotId", "tenantId", "jurisdiction", "sequence", "issuedAt", "expiresAt", "signingKeyId",
    "issuers", "rotations", "statuses"]

  function ParseSchema(v: Json): Option<Schema> {
    if !Shaped(v, SCHEMA_NAMES, []) then None
    else
      var schemaId :- ReadText(Field(v, "schemaId"), 512);
      var status :- ReadAuthorization(Field(v, "status"));
      Some(Schema(schemaId, status))
  }

  function ReadUntil(v: Json): Option<Option<int>> {
    if v == Undefined then Some(None)
    else
      var n :- ReadInteger(v, 0);
      Some(Some(n))
  }

  function ParseKey(v: Json): Option<Key> {
    if !Shaped(v, KEY_NAMES, ["authorizedUntil"]) then None
    else
      var status :- ReadKeyStatus(Field(v, "status"));
      var from :- ReadInteger(Field(v, "authorizedFrom"), 0);
      var until :- ReadUntil(Field(v, "authorizedUntil"));
      if until.Some? && until.value <= from then None
      else if status == Retired && until.None? then None
      else
        var keyId :- ReadText(Field(v, "keyId"), 512);
        Some(Key(keyId, status, from, until))
  }

  function ParseIssuer(v: Json): Option<Issuer> {
    if !Shaped(v, ISSUER_NAMES, []) then None
    else
      var schemas :- ReadList(Field(v, "schemas"), 10000, ParseSchema);
      var keys :- ReadList(Field(v, "keys"), 10000, ParseKey);
      var trustMarks :- ReadList(Field(v, "trustMarks"), 128, ParseTrustMark);
      if !Distinct(SchemaIds(schemas)) || !Distinct(KeyIds(keys)) || !Distinct(trustMarks) then None
      else
        var issuerId :- ReadText(Field(v, "issuerId"), 512);
        var status :- ReadAuthorization(Field(v, "status"));
        Some(Issuer(issuerId, status, schemas, keys, trustMarks))
  }

  function ParseTrustMark(v: Json): Option<Text> {
    ReadText(v, 128)
  }

  function SchemaIds(schemas: seq<Schema>): seq<Text> {
    Map(schemas, (s: Schema) => s.schemaId)
  }

  function KeyIds(keys: seq<Key>): seq<Text> {
    Map(keys, (k: Key) => k.keyId)
  }

  function ParseRotation(v: Json): Option<Rotation> {
    if !Shaped(v, ROTATION_NAMES, []) then None
    else
      var previousKeyId :- ReadText(Field(v, "previousKeyId"), 512);
      var newKeyId :- ReadText(Field(v, "newKeyId"), 512);
      if previousKeyId == newKeyId then None
      else
        var issuerId :- ReadText(Field(v, "issuerId"), 512);
        var rotatedAt :- ReadInteger(Field(v, "rotatedAt"), 0);
        Some(Rotation(issuerId, previousKeyId, newKeyId, rotatedAt))
  }

  function ParseStatus(v: Json): Option<StatusEntry> {
    if !Shaped(v, STATUS_NAMES, []) then None
    else
      var issuerId :- ReadText(Field(v, "issuerId"), 512);
      var statusId :- ReadScope(Field(v, "statusId"));
      var status :- ReadCredentialStatus(Field(v, "status"));
      var updatedAt :- ReadInteger(Field(v, "updatedAt"), 0);
      Some(StatusEntry(issuerId, statusId, status, updatedAt))
  }

  // --------------------------------------------------------------- relations

  function RotationKey(r: Rotation): Text {
    Join2(r.issuerId, Join2(r.previousKeyId, Join2(r.newKeyId, PrintNumber(r.rotatedAt))))
  }

  function PredecessorKey(r: Rotation): Text {
    Join2(r.issuerId, Join2(Ascii("previous"), r.previousKeyId))
  }

  function SuccessorKey(r: Rotation): Text {
    Join2(r.issuerId, Join2(Ascii("next"), r.newKeyId))
  }

  function StatusKey(s: StatusEntry): Text {
    Join2(s.issuerId, s.statusId)
  }

  /** The uniqueness checks, on the joined texts. */
  predicate KeysUnique(s: Snapshot) {
    && Distinct(Map(s.issuers, (i: Issuer) => i.issuerId))
    && Distinct(Map(s.rotations, RotationKey))
    && Distinct(Map(s.rotations, PredecessorKey))
    && Distinct(Map(s.rotations, SuccessorKey))
    && Distinct(Map(s.statuses, StatusKey))
  }

  function FindIssuer(issuers: seq<Issuer>, id: Text): (r: Option<Issuer>)
    ensures r.Some? ==> r.value in issuers && r.value.issuerId == id
    ensures r.None? <==> forall i | i in issuers :: i.issuerId != id
  {
    if |issuers| == 0 then None
    else if issuers[0].issuerId == id then Some(issuers[0])
    else FindIssuer(issuers[1..], id)
  }

  function FindKey(keys: seq<Key>, id: Text): (r: Option<Key>)
    ensures r.Some? ==> r.value in keys && r.value.keyId == id
    ensures r.None? <==> forall k | k in keys :: k.keyId != id
  {
    if |keys| == 0 then None
    else if keys[0].keyId == id then Some(keys[0])
    else FindKey(keys[1..], id)
  }

  predicate RotationMatches(s: Snapshot, r: Rotation) {
    var issuer := FindIssuer(s.issuers, r.issuerId);
    issuer.Some? &&
    var previous, next := FindKey(issuer.value.keys, r.previousKeyId), FindKey(issuer.value.keys, r.newKeyId);
    && previous.Some? && next.Some?
    && previous.value.status == Retired
    && previous.value.until == Some(r.rotatedAt)
    && next.value.from == r.rotatedAt
    && r.rotatedAt <= s.issuedAt
  }

  predicate StatusMatches(s: Snapshot, entry: StatusEntry) {
    FindIssuer(s.issuers, entry.issuerId).Some? && entry.updatedAt <= s.issuedAt
  }

  /** `validateRelations`. */
  predicate RelationsHold(s: Snapshot) {
    && (forall r | r in s.rotations :: RotationMatches(s, r))
    && (forall e | e in s.statuses :: StatusMatches(s, e))
  }

  function ParseUnsigned(v: Json): Option<Snapshot> {
    if !Shaped(v, SNAPSHOT_NAMES, []) then None
    else if Field(v, "schemaVersion") != Number(1) then None
    else
      var issuedAt :- ReadInteger(Field(v, "issuedAt"), 0);
      var expiresAt :- ReadInteger(Field(v, "expiresAt"), 0);
      if expiresAt <= issuedAt then None
      else
        var issuers :- ReadList(Field(v, "issuers"), 10000, ParseIssuer);
        var rotations :- ReadList(Field(v, "rotations"), 10000, ParseRotation);
        var statuses :- ReadList(Field(v, "statuses"), 10000, ParseStatus);
        var snapshotId :- ReadScope(Field(v, "snapshotId"));
        var tenantId :- ReadScope(Field(v, "tenantId"));
        var jurisdiction :- ReadScope(Field(v, "jurisdiction"));
        var sequence :- ReadInteger(Field(v, "sequence"), 1);
        var signingKeyId :- ReadText(Field(v, "signingKeyId"), 256);
        var s := Snapshot(snapshotId, tenantId, jurisdiction, sequence, issuedAt, expiresAt,
                          signingKeyId, issuers, rotations, statuses);
        if KeysUnique(s) && RelationsHold(s) then Some(s) else None
  }

  // ----------------------------------------------------------------- objects

  function SchemaJson(s: Schema): Json {
    Record(SCHEMA_NAMES, [String(s.schemaId), String(Ascii(AuthorizationName(s.status)))])
  }

  function KeyValues(k: Key): (r: seq<Json>)
    ensures |r| == 3
  {
    [String(k.keyId), String(Ascii(KeyStatusName(k.status))), Number(k.from)]
  }

  function KeyJson(k: Key): Json {
    match k.until
    case None => Record(KEY_NAMES, KeyValues(k))
    case Some(until) => Record(KEY_NAMES + ["authorizedUntil"], KeyValues(k) + [Number(until)])
  }

  function IssuerJson(i: Issuer): Json {
    Record(ISSUER_NAMES, [
      String(i.issuerId), String(Ascii(AuthorizationName(i.status))), Array(Map(i.schemas, SchemaJson)),
      Array(Map(i.keys, KeyJson)), Array(Map(i.trustMarks, TextJson))])
  }

  function TextJson(t: Text): Json {
    String(t)
  }

  function RotationJson(r: Rotation): Json {
    Record(ROTATION_NAMES, [String(r.issuerId), String(r.previousKeyId), String(r.newKeyId), Number(r.rotatedAt)])
  }

  function StatusJson(s: StatusEntry): Json {
    Record(STATUS_NAMES, [
      String(s.issuerId), String(s.statusId), String(Ascii(CredentialStatusName(s.status))), Number(s.updatedAt)])
  }

  function SnapshotValues(s: Snapshot): (r: seq<Json>)
    ensures |r| == |SNAPSHOT_NAMES|
  {
    [ Number(1), String(s.snapshotId), String(s.tenantId), String(s.jurisdiction), Number(s.sequence),
      Number(s.issuedAt), Number(s.expiresAt), String(s.signingKeyId), Array(Map(s.issuers, IssuerJson)),
      Array(Map(s.rotations, RotationJson)), Array(Map(s.statuses, StatusJson)) ]
  }

  function SnapshotJson(s: Snapshot): Json {
    Record(SNAPSHOT_NAMES, SnapshotValues(s))
  }

  // ---------------------------------------------------------------- validity

  predicate ValidSchema(s: Schema) {
    IsText(s.schemaId, 512)
  }

  predicate ValidKey(k: Key) {
    && IsText(k.keyId, 512) && IsInteger(k.from, 0)
    && (k.until.Some? ==> IsInteger(k.until.value, 0) && k.from < k.until.value)
    && (k.status == Retired ==> k.until.Some?)
  }

  predicate ValidIssuer(i: Issuer) {
    && IsText(i.issuerId, 512)
    && |i.schemas| <= 10000 && |i.keys| <= 10000 && |i.trustMarks| <= 128
    && (forall s | s in i.schemas :: ValidSchema(s))
    && (forall k | k in i.keys :: ValidKey(k))
    && (forall t | t in i.trustMarks :: IsText(t, 128))
    && Distinct(SchemaIds(i.schemas)) && Distinct(KeyIds(i.keys)) && Distinct(i.trustMarks)
  }

  predicate ValidRotation(r: Rotation) {
    && IsText(r.issuerId, 512) && IsText(r.previousKeyId, 512) && IsText(r.newKeyId, 512)
    && r.previousKeyId != r.newKeyId && IsInteger(r.rotatedAt, 0)
  }

  predicate ValidStatus(s: StatusEntry) {
    IsText(s.issuerId, 512) && IsScope(s.statusId) && IsInteger(s.updatedAt, 0)
  }

  predicate ValidHeader(s: Snapshot) {
    && IsScope(s.snapshotId) && IsScope(s.tenantId) && IsScope(s.jurisdiction)
    && IsInteger(s.sequence, 1) && IsInteger(s.issuedAt, 0) && IsInteger(s.expiresAt, 0) && s.issuedAt < s.expiresAt
    && IsText(s.signingKeyId, 256)
    && |s.issuers| <= 10000 && |s.rotations| <= 10000 && |s.statuses| <= 10000
  }

  predicate ValidParts(s: Snapshot) {
    && (forall i | i in s.issuers :: ValidIssuer(i))
    && (forall r | r in s.rotations :: ValidRotation(r))
    && (forall e | e in s.statuses :: ValidStatus(e))
  }

  /** What an accepted snapshot satisfies. */
  predicate Valid(s: Snapshot) {
    ValidHeader(s) && ValidParts(s) && KeysUnique(s) && RelationsHold(s)
  }

  // ----------------------------------------------------- parsing what was built

  lemma StatusNames()
    ensures forall a :: ReadAuthorization(String(Ascii(AuthorizationName(a)))) == Some(a)
    ensures forall k :: ReadKeyStatus(String(Ascii(KeyStatusName(k)))) == Some(k)
    ensures forall c :: ReadCredentialStatus(String(Ascii(CredentialStatusName(c)))) == Some(c)
  {
    assert |Ascii("active")| == 6 && |Ascii("suspended")| == 9 && |Ascii("revoked")| == 7;
    assert |Ascii("retired")| == 7 && |Ascii("valid")| == 5;
    assert Ascii("revoked")[2] == 'v' as int && Ascii("retired")[2] == 't' as int;
  }

  lemma ReadListBuilt<T>(xs: seq<T>, max: nat, write: T -> Json, read: Json -> Option<T>, valid: T -> bool)
    requires forall x | x in xs :: read(write(x)) == if valid(x) then Some(x) else None
    ensures ReadList(Array(Map(xs, write)), max, read)
         == if |xs| <= max && forall x | x in xs :: valid(x) then Some(xs) else None
  {
    ReadAllBuilt(xs, write, read, valid);
  }

  lemma SchemaRoundTrip(s: Schema)
    ensures ParseSchema(SchemaJson(s)) == if ValidSchema(s) then Some(s) else None
  {
    hide Field, Record, IsText, Shaped, ReadAuthorization;
    StatusNames();
    var values := [String(s.schemaId), String(Ascii(AuthorizationName(s.status)))];
    SchemaNames();
    RecordShape(SCHEMA_NAMES, values);
    assert Field(SchemaJson(s), SCHEMA_NAMES[0]) == values[0] && Field(SchemaJson(s), SCHEMA_NAMES[1]) == values[1];
  }

  lemma SchemaNames()
    ensures FieldNames(SCHEMA_NAMES)
  {}

  lemma KeyNames()
    ensures FieldNames(KEY_NAMES + ["authorizedUntil"]) && FieldNames(KEY_NAMES)
  {
    var names := KEY_NAMES + ["authorizedUntil"];
    assert names == ["keyId", "status", "authorizedFrom", "authorizedUntil"];
    assert forall name | name in names :: IsName(name);
    assert "authorizedFrom"[10] != "authorizedUntil"[10];
  }

  lemma IssuerNames()
    ensures FieldNames(ISSUER_NAMES)
  {}

  lemma RotationNames()
    ensures FieldNames(ROTATION_NAMES)
  {}

  lemma EntryNames()
    ensures FieldNames(STATUS_NAMES)
  {}

  const HEADER_NAMES: seq<string> := ["schemaVersion", "snapshotId", "tenantId", "jurisdiction", "sequence"]
  const BODY_NAMES: seq<string> := ["issuedAt", "expiresAt", "signingKeyId", "issuers", "rotations", "statuses"]

  lemma SnapshotNames()
    ensures FieldNames(SNAPSHOT_NAMES)
  {
    hide Letters;
    HeaderLetters();
    BodyLetters();
    LettersAppend(HEADER_NAMES, BODY_NAMES);
    assert SNAPSHOT_NAMES == HEADER_NAMES + BODY_NAMES;
    DistinctSnapshotNames();
  }

  lemma HeaderLetters()
    ensures Letters(HEADER_NAMES)
  {}

  lemma BodyLetters()
    ensures Letters(BODY_NAMES)
  {}

  lemma DistinctSnapshotNames()
    ensures forall i, j | 0 <= i < j < |SNAPSHOT_NAMES| :: SNAPSHOT_NAMES[i] != SNAPSHOT_NAMES[j]
  {
    assert "tenantId"[0] == 't' && "sequence"[0] == 's' && "issuedAt"[0] == 'i' && "statuses"[1] == 't';
    assert "expiresAt"[0] == 'e' && "rotations"[0] == 'r' && "jurisdiction"[0] == 'j' && "signingKeyId"[0] == 's';
  }

  lemma KeyRoundTrip(k: Key)
    ensures ParseKey(KeyJson(k)) == if ValidKey(k) then Some(k) else None
  {
    hide Field, Record, IsText, Shaped, ReadKeyStatus, ReadInteger;
    StatusNames();
    KeyFields(k);
    IntegerRead(k.from, 0);
    if k.until.Some? {
      IntegerRead(k.until.value, 0);
    }
  }

  lemma IntegerRead(n: int, minimum: int)
    ensures ReadInteger(Number(n), minimum) == if IsInteger(n, minimum) then Some(n) else None
  {}

  /** The object built for a key, with or without its last field, has the key's fields. */
  lemma KeyFields(k: Key)
    ensures Shaped(KeyJson(k), KEY_NAMES, ["authorizedUntil"])
    ensures Field(KeyJson(k), "keyId") == KeyValues(k)[0] && Field(KeyJson(k), "status") == KeyValues(k)[1]
    ensures Field(KeyJson(k), "authorizedFrom") == KeyValues(k)[2]
    ensures Field(KeyJson(k), "authorizedUntil") == if k.until.Some? then Number(k.until.value) else Undefined
  {
    hide Field, Record, ExactKeys, FieldNames;
    KeyNames();
    var names, values := KEY_NAMES, KeyValues(k);
    if k.until.Some? {
      names, values := names + ["authorizedUntil"], values + [Number(k.until.value)];
    }
    RecordShape(names, values);
    assert Field(KeyJson(k), names[0]) == values[0] && Field(KeyJson(k), names[1]) == values[1];
    assert Field(KeyJson(k), names[2]) == values[2];
    WiderShape(KeyJson(k), names, KEY_NAMES, ["authorizedUntil"]);
    if k.until.Some? {
      assert Field(KeyJson(k), names[3]) == values[3];
    } else {
      NotAKeyName();
      UnnamedField(KEY_NAMES, KeyValues(k), "authorizedUntil");
    }
  }

  lemma NotAKeyName()
    ensures IsName("authorizedUntil") && "authorizedUntil" !in KEY_NAMES
  {
    assert "authorizedFrom"[10] != "authorizedUntil"[10];
  }

  lemma WiderShape(v: Json, names: seq<string>, required: seq<string>, optional: seq<string>)
    requires Shaped(v, names, [])
    requires names == required || names == required + optional
    ensures Shaped(v, required, optional)
  {
    assert names + [] == names;
    forall m | m in v.members ensures m.key in Keys(required + optional) {
      var i :| 0 <= i < |names| && Keys(names)[i] == m.key;
      assert Keys(required + optional)[i] == m.key;
    }
  }

  lemma UnnamedField(names: seq<string>, values: seq<Json>, name: string)
    requires |names| == |values| && FieldNames(names) && IsName(name) && name !in names
    ensures Field(Record(names, values), name) == Undefined
  {
    var ms := Record(names, values).members;
    if HasKey(ms, Ascii(name)) {
      var m :| m in ms && m.key == Ascii(name);
      var i :| 0 <= i < |ms| && ms[i] == m;
      NameInjective(names[i], name);
    }
    GetAbsent(ms, Ascii(name));
  }

  lemma IssuerRoundTrip(i: Issuer)
    ensures ParseIssuer(IssuerJson(i)) == if ValidIssuer(i) then Some(i) else None
  {
    hide Field, Record, IsText, Shaped, ReadAuthorization, ReadList, ParseSchema, ParseKey, ParseTrustMark, Distinct,
      ValidSchema, ValidKey, SchemaJson, KeyJson, TextJson, Map;
    var v := IssuerJson(i);
    var values := [String(i.issuerId), String(Ascii(AuthorizationName(i.status))), Array(Map(i.schemas, SchemaJson)),
                   Array(Map(i.keys, KeyJson)), Array(Map(i.trustMarks, TextJson))];
    StatusNames();
    IssuerNames();
    RecordShape(ISSUER_NAMES, values);
    assert Field(v, ISSUER_NAMES[0]) == values[0] && Field(v, ISSUER_NAMES[1]) == values[1];
    assert Field(v, ISSUER_NAMES[2]) == values[2] && Field(v, ISSUER_NAMES[3]) == values[3];
    assert Field(v, ISSUER_NAMES[4]) == values[4];
    forall s | s in i.schemas ensures ParseSchema(SchemaJson(s)) == if ValidSchema(s) then Some(s) else None {
      SchemaRoundTrip(s);
    }
    forall k | k in i.keys ensures ParseKey(KeyJson(k)) == if ValidKey(k) then Some(k) else None {
      KeyRoundTrip(k);
    }
    forall t | t in i.trustMarks ensures ParseTrustMark(TextJson(t)) == if IsText(t, 128) then Some(t) else None {
      TrustMarkRoundTrip(t);
    }
    ReadListBuilt(i.schemas, 10000, SchemaJson, ParseSchema, ValidSchema);
    ReadListBuilt(i.keys, 10000, KeyJson, ParseKey, ValidKey);
    ReadListBuilt(i.trustMarks, 128, TextJson, ParseTrustMark, t => IsText(t, 128));
  }

  lemma TrustMarkRoundTrip(t: Text)
    ensures ParseTrustMark(TextJson(t)) == if IsText(t, 128) then Some(t) else None
  {}

  lemma RotationRoundTrip(r: Rotation)
    ensures ParseRotation(RotationJson(r)) == if ValidRotation(r) then Some(r) else None
  {
    hide Field, Record, IsText, Shaped, ReadInteger;
    var v := RotationJson(r);
    var values := [String(r.issuerId), String(r.previousKeyId), String(r.newKeyId), Number(r.rotatedAt)];
    RotationNames();
    RecordShape(ROTATION_NAMES, values);
    assert Field(v, ROTATION_NAMES[0]) == values[0] && Field(v, ROTATION_NAMES[1]) == values[1];
    assert Field(v, ROTATION_NAMES[2]) == values[2] && Field(v, ROTATION_NAMES[3]) == values[3];
    IntegerRead(r.rotatedAt, 0);
  }

  lemma StatusRoundTrip(s: StatusEntry)
    ensures ParseStatus(StatusJson(s)) == if ValidStatus(s) then Some(s) else None
  {
    hide Field, Record, IsText, IsScope, Shaped, ReadInteger, ReadCredentialStatus;
    var v := StatusJson(s);
    var values := [String(s.issuerId), String(s.statusId), String(Ascii(CredentialStatusName(s.status))),
      Number(s.updatedAt)];
    StatusNames();
    EntryNames();
    RecordShape(STATUS_NAMES, values);
    assert Field(v, STATUS_NAMES[0]) == values[0] && Field(v, STATUS_NAMES[1]) == values[1];
    assert Field(v, STATUS_NAMES[2]) == values[2] && Field(v, STATUS_NAMES[3]) == values[3];
    IntegerRead(s.updatedAt, 0);
  }

  /** The parser accepts the object of a snapshot exactly when the snapshot is valid, and returns it. */
  lemma SnapshotRoundTrip(s: Snapshot)
    ensures ParseUnsigned(SnapshotJson(s)) == if Valid(s) then Some(s) else None
  {
    hide Field, Record, IsText, IsScope, Shaped, ReadList, ReadInteger, ParseIssuer, ParseRotation, ParseStatus,
      ValidIssuer, ValidRotation, ValidStatus, IssuerJson, RotationJson, StatusJson, KeysUnique, RelationsHold, Map;
    var v := SnapshotJson(s);
    var values := SnapshotValues(s);
    SnapshotNames();
    RecordShape(SNAPSHOT_NAMES, values);
    assert Field(v, SNAPSHOT_NAMES[0]) == values[0] && Field(v, SNAPSHOT_NAMES[1]) == values[1];
    assert Field(v, SNAPSHOT_NAMES[2]) == values[2] && Field(v, SNAPSHOT_NAMES[3]) == values[3];
    assert Field(v, SNAPSHOT_NAMES[4]) == values[4] && Field(v, SNAPSHOT_NAMES[5]) == values[5];
    assert Field(v, SNAPSHOT_NAMES[6]) == values[6] && Field(v, SNAPSHOT_NAMES[7]) == values[7];
    assert Field(v, SNAPSHOT_NAMES[8]) == values[8] && Field(v, SNAPSHOT_NAMES[9]) == values[9];
    assert Field(v, SNAPSHOT_NAMES[10]) == values[10];
    PartsRead(s);
    IntegerRead(s.issuedAt, 0);
    IntegerRead(s.expiresAt, 0);
    IntegerRead(s.sequence, 1);
  }

  lemma PartsRead(s: Snapshot)
    ensures ReadList(Array(Map(s.issuers, IssuerJson)), 10000, ParseIssuer)
         == if |s.issuers| <= 10000 && forall i | i in s.issuers :: ValidIssuer(i) then Some(s.issuers) else None
    ensures ReadList(Array(Map(s.rotations, RotationJson)), 10000, ParseRotation)
         == if |s.rotations| <= 10000 && forall r | r in s.rotations :: ValidRotation(r) then Some(s.rotations)
           else None
    ensures ReadList(Array(Map(s.statuses, StatusJson)), 10000, ParseStatus)
         == if |s.statuses| <= 10000 && forall e | e in s.statuses :: ValidStatus(e) then Some(s.statuses) else None
  {
    hide ReadList, ParseIssuer, ParseRotation, ParseStatus, ValidIssuer, ValidRotation, ValidStatus,
      IssuerJson, RotationJson, StatusJson, Map;
    forall i | i in s.issuers ensures ParseIssuer(IssuerJson(i)) == if ValidIssuer(i) then Some(i) else None {
      IssuerRoundTrip(i);
    }
    forall r | r in s.rotations ensures ParseRotation(RotationJson(r)) == if ValidRotation(r) then Some(r) else None {
      RotationRoundTrip(r);
    }
    forall e | e in s.statuses ensures ParseStatus(StatusJson(e)) == if ValidStatus(e) then Some(e) else None {
      StatusRoundTrip(e);
    }
    ReadListBuilt(s.issuers, 10000, IssuerJson, ParseIssuer, ValidIssuer);
    ReadListBuilt(s.rotations, 10000, RotationJson, ParseRotation, ValidRotation);
    ReadListBuilt(s.statuses, 10000, StatusJson, ParseStatus, ValidStatus);
  }

  // --------------------------------------------------- what the parser returns

  lemma ReadListGives<T>(v: Json, max: nat, read: Json -> Option<T>, valid: T -> bool)
    requires forall item :: read(item).Some? ==> valid(read(item).value)
    ensures ReadList(v, max, read).Some? ==>
      |ReadList(v, max, read).value| <= max && forall x | x in ReadList(v, max, read).value :: valid(x)
  {
    if ReadList(v, max, read).Some? {
      ReadAllGives(v.items, read, valid);
      ReadAllLength(v.items, read);
    }
  }

  lemma ParsedSchemaValid(v: Json)
    ensures ParseSchema(v).Some? ==> ValidSchema(ParseSchema(v).value)
  {}

  lemma ParsedKeyValid(v: Json)
    ensures ParseKey(v).Some? ==> ValidKey(ParseKey(v).value)
  {
    hide Field, Shaped, IsText;
  }

  lemma ParsedIssuerValid(v: Json)
    ensures ParseIssuer(v).Some? ==> ValidIssuer(ParseIssuer(v).value)
  {
    hide Field, Shaped, IsText, ReadList, Distinct, ReadAuthorization, ParseSchema, ParseKey, ParseTrustMark;
    forall item ensures ParseSchema(item).Some? ==> ValidSchema(ParseSchema(item).value) {
      ParsedSchemaValid(item);
    }
    forall item ensures ParseKey(item).Some? ==> ValidKey(ParseKey(item).value) {
      ParsedKeyValid(item);
    }
    forall item ensures ParseTrustMark(item).Some? ==> IsText(ParseTrustMark(item).value, 128) {
      ParsedTrustMarkValid(item);
    }
    ReadListGives(Field(v, "schemas"), 10000, ParseSchema, ValidSchema);
    ReadListGives(Field(v, "keys"), 10000, ParseKey, ValidKey);
    ReadListGives(Field(v, "trustMarks"), 128, ParseTrustMark, t => IsText(t, 128));
  }

  lemma ParsedTrustMarkValid(v: Json)
    ensures ParseTrustMark(v).Some? ==> IsText(ParseTrustMark(v).value, 128)
  {}

  lemma ParsedRotationValid(v: Json)
    ensures ParseRotation(v).Some? ==> ValidRotation(ParseRotation(v).value)
  {
    hide Field, Shaped, IsText;
  }

  lemma ParsedStatusValid(v: Json)
    ensures ParseStatus(v).Some? ==> ValidStatus(ParseStatus(v).value)
  {
    hide Field, Shaped, IsText, IsScope, ReadCredentialStatus;
  }

  /** Every snapshot the parser returns is valid. */
  lemma ParsedIsValid(v: Json)
    ensures ParseUnsigned(v).Some? ==> Valid(ParseUnsigned(v).value)
  {
    hide Field, Shaped, IsText, IsScope, ReadList, ParseIssuer, ParseRotation, ParseStatus, KeysUnique, RelationsHold,
      ValidIssuer, ValidRotation, ValidStatus;
    forall item ensures ParseIssuer(item).Some? ==> ValidIssuer(ParseIssuer(item).value) {
      ParsedIssuerValid(item);
    }
    forall item ensures ParseRotation(item).Some? ==> ValidRotation(ParseRotation(item).value) {
      ParsedRotationValid(item);
    }
    forall item ensures ParseStatus(item).Some? ==> ValidStatus(ParseStatus(item).value) {
      ParsedStatusValid(item);
    }
    ReadListGives(Field(v, "issuers"), 10000, ParseIssuer, ValidIssuer);
    ReadListGives(Field(v, "rotations"), 10000, ParseRotation, ValidRotation);
    ReadListGives(Field(v, "statuses"), 10000, ParseStatus, ValidStatus);
  }

  // ------------------------------------------------- parsing the canonical form

  /** Reading ignores what the canonical form drops: v is read the same once normalised. */
  ghost predicate Stable<T(!new)>(read: Json -> Option<T>) {
    forall v | WellFormed(v) && read(v).Some? :: read(Norm(v)) == read(v)
  }

  lemma {:induction false} ReadAllStable<T(!new)>(items: seq<Json>, read: Json -> Option<T>)
    requires Stable(read) && forall item | item in items :: WellFormed(item)
    ensures ReadAll(items, read).Some? ==> ReadAll(NormItems(items), read) == ReadAll(items, read)
  {
    if |items| > 0 && ReadAll(items, read).Some? {
      assert items[0] in items;
      assert NormItems(items)[1..] == NormItems(items[1..]);
      ReadAllStable(items[1..], read);
    }
  }

  lemma ReadListStable<T(!new)>(v: Json, max: nat, read: Json -> Option<T>)
    requires Stable(read) && WellFormed(v)
    ensures ReadList(v, max, read).Some? ==> ReadList(Norm(v), max, read) == ReadList(v, max, read)
  {
    if ReadList(v, max, read).Some? {
      ReadAllStable(v.items, read);
      ArrayNorm(v);
    }
  }

  lemma ArrayNorm(v: Json)
    requires v.Array?
    ensures Norm(v) == Array(NormItems(v.items))
  {}

  /** The canonical form keeps every field, and the shape when no required field is undefined. */
  lemma ShapeStable(v: Json, required: seq<string>, optional: seq<string>)
    requires WellFormed(v) && Shaped(v, required, optional)
    requires forall name | name in required :: Field(v, name) != Undefined
    ensures Shaped(Norm(v), required, optional)
  {
    hide Norm, NormObject;
    NormIsObject(v);
    forall name | name in required ensures HasKey(NormObject(v), Ascii(name)) {
      GetOfNorm(v, Ascii(name));
      assert Field(v, name) != Undefined;
    }
    forall r | r in NormObject(v) ensures r.key in Keys(required + optional) {
      var m := NormObjectFrom(v, r);
    }
  }

  lemma FieldStable(v: Json, name: string)
    requires WellFormed(v) && v.Object?
    ensures Field(Norm(v), name) == Norm(Field(v, name)) && WellFormed(Field(v, name))
  {
    hide Norm, NormObject;
    NormIsObject(v);
    GetOfNorm(v, Ascii(name));
    GetWellFormed(v.members, Ascii(name));
  }

  /** A field without parts is the same in the canonical form. */
  lemma PlainField(v: Json, name: string)
    requires WellFormed(v) && v.Object? && !Field(v, name).Array? && !Field(v, name).Object?
    ensures Field(Norm(v), name) == Field(v, name)
  {
    hide Norm;
    FieldStable(v, name);
    NormScalar(Field(v, name));
  }

  lemma SchemaStable()
    ensures Stable(ParseSchema)
  {
    hide Norm, WellFormed, Shaped, Field;
    forall v | WellFormed(v) && ParseSchema(v).Some? ensures ParseSchema(Norm(v)) == ParseSchema(v) {
      ShapedObject(v, SCHEMA_NAMES, []);
      ShapeStable(v, SCHEMA_NAMES, []);
      PlainField(v, "schemaId");
      PlainField(v, "status");
    }
  }

  lemma ShapedObject(v: Json, required: seq<string>, optional: seq<string>)
    requires Shaped(v, required, optional)
    ensures v.Object?
  {}

  lemma KeyStable()
    ensures Stable(ParseKey)
  {
    hide Norm, WellFormed, Shaped, Field, IsText;
    forall v | WellFormed(v) && ParseKey(v).Some? ensures ParseKey(Norm(v)) == ParseKey(v) {
      ShapedObject(v, KEY_NAMES, ["authorizedUntil"]);
      ShapeStable(v, KEY_NAMES, ["authorizedUntil"]);
      PlainField(v, "keyId");
      PlainField(v, "status");
      PlainField(v, "authorizedFrom");
      PlainField(v, "authorizedUntil");
    }
  }

  lemma TrustMarkStable()
    ensures Stable(ParseTrustMark)
  {
    forall v | WellFormed(v) && ParseTrustMark(v).Some? ensures ParseTrustMark(Norm(v)) == ParseTrustMark(v) {
      NormScalar(v);
    }
  }

  lemma IssuerStable()
    ensures Stable(ParseIssuer)
  {
    hide Norm, WellFormed, Shaped, Field, IsText, Distinct, ReadAll, ParseSchema, ParseKey, ParseTrustMark, Stable,
      ReadAuthorization;
    SchemaStable();
    KeyStable();
    TrustMarkStable();
    forall v | WellFormed(v) && ParseIssuer(v).Some? ensures ParseIssuer(Norm(v)) == ParseIssuer(v) {
      ShapedObject(v, ISSUER_NAMES, []);
      StatusDefined(Field(v, "status"));
      ShapeStable(v, ISSUER_NAMES, []);
      FieldStable(v, "schemas");
      FieldStable(v, "keys");
      FieldStable(v, "trustMarks");
      ReadListStable(Field(v, "schemas"), 10000, ParseSchema);
      ReadListStable(Field(v, "keys"), 10000, ParseKey);
      ReadListStable(Field(v, "trustMarks"), 128, ParseTrustMark);
      PlainField(v, "issuerId");
      PlainField(v, "status");
    }
    StableIs(ParseIssuer);
  }

  lemma StatusDefined(v: Json)
    ensures ReadAuthorization(v).Some? ==> v.String?
    ensures ReadCredentialStatus(v).Some? ==> v.String?
  {}

  lemma StableIs<T(!new)>(read: Json -> Option<T>)
    requires forall v | WellFormed(v) && read(v).Some? :: read(Norm(v)) == read(v)
    ensures Stable(read)
  {}

  lemma RotationStable()
    ensures Stable(ParseRotation)
  {
    hide Norm, WellFormed, Shaped, Field, IsText;
    forall v | WellFormed(v) && ParseRotation(v).Some? ensures ParseRotation(Norm(v)) == ParseRotation(v) {
      ShapedObject(v, ROTATION_NAMES, []);
      ShapeStable(v, ROTATION_NAMES, []);
      PlainField(v, "previousKeyId");
      PlainField(v, "newKeyId");
      PlainField(v, "issuerId");
      PlainField(v, "rotatedAt");
    }
  }

  lemma StatusStable()
    ensures Stable(ParseStatus)
  {
    hide Norm, WellFormed, Shaped, Field, IsText, IsScope, ReadCredentialStatus;
    forall v | WellFormed(v) && ParseStatus(v).Some? ensures ParseStatus(Norm(v)) == ParseStatus(v) {
      ShapedObject(v, STATUS_NAMES, []);
      StatusDefined(Field(v, "status"));
      ShapeStable(v, STATUS_NAMES, []);
      PlainField(v, "issuerId");
      PlainField(v, "statusId");
      PlainField(v, "status");
      PlainField(v, "updatedAt");
    }
  }

  /** The fields of a snapshot that have no parts. */
  const PLAIN_NAMES: seq<string> :=
    ["schemaVersion", "snapshotId", "tenantId", "jurisdiction", "sequence", "issuedAt", "expiresAt", "signingKeyId"]

  predicate Partless(v: Json) {
    !v.Array? && !v.Object? && v != Undefined
  }

  lemma PlainFieldsPartless(v: Json)
    requires ParseUnsigned(v).Some?
    ensures v.Object? && forall i | 0 <= i < |PLAIN_NAMES| :: Partless(Field(v, PLAIN_NAMES[i]))
  {
    hide Field, IsText, IsScope, ReadList, ParseIssuer, ParseRotation, ParseStatus, KeysUnique, RelationsHold,
      ExactKeys;
  }

  lemma PlainFields(v: Json)
    requires WellFormed(v) && ParseUnsigned(v).Some?
    ensures v.Object? && forall i | 0 <= i < |PLAIN_NAMES| :: Field(Norm(v), PLAIN_NAMES[i]) == Field(v, PLAIN_NAMES[i])
  {
    hide Norm, WellFormed, Field, ParseUnsigned, PLAIN_NAMES;
    PlainFieldsPartless(v);
    forall i | 0 <= i < |PLAIN_NAMES| ensures Field(Norm(v), PLAIN_NAMES[i]) == Field(v, PLAIN_NAMES[i]) {
      PlainField(v, PLAIN_NAMES[i]);
    }
  }

  lemma ListFields(v: Json)
    requires WellFormed(v) && ParseUnsigned(v).Some?
    ensures ReadList(Field(Norm(v), "issuers"), 10000, ParseIssuer) == ReadList(Field(v, "issuers"), 10000, ParseIssuer)
    ensures ReadList(Field(Norm(v), "rotations"), 10000, ParseRotation)
      == ReadList(Field(v, "rotations"), 10000, ParseRotation)
    ensures ReadList(Field(Norm(v), "statuses"), 10000, ParseStatus)
      == ReadList(Field(v, "statuses"), 10000, ParseStatus)
    ensures Shaped(Norm(v), SNAPSHOT_NAMES, [])
  {
    hide Norm, WellFormed, Shaped, Field, IsText, IsScope, ReadList, ParseIssuer, ParseRotation, ParseStatus, Stable,
      KeysUnique, RelationsHold;
    IssuerStable();
    RotationStable();
    StatusStable();
    ShapedObject(v, SNAPSHOT_NAMES, []);
    ListsDefined(v);
    ShapeStable(v, SNAPSHOT_NAMES, []);
    FieldStable(v, "issuers");
    FieldStable(v, "rotations");
    FieldStable(v, "statuses");
    ReadListStable(Field(v, "issuers"), 10000, ParseIssuer);
    ReadListStable(Field(v, "rotations"), 10000, ParseRotation);
    ReadListStable(Field(v, "statuses"), 10000, ParseStatus);
  }

  lemma ListsDefined(v: Json)
    requires ParseUnsigned(v).Some?
    ensures forall name | name in SNAPSHOT_NAMES :: Field(v, name) != Undefined
  {
    hide Shaped, Field, IsText, IsScope, ReadAll, ParseIssuer, ParseRotation, ParseStatus, KeysUnique, RelationsHold;
  }

  /** A snapshot read from an object is read from its canonical form too. */
  lemma SnapshotStable(v: Json)
    requires WellFormed(v) && ParseUnsigned(v).Some?
    ensures ParseUnsigned(Norm(v)) == ParseUnsigned(v)
  {
    hide Norm, WellFormed, Shaped, Field, IsText, IsScope, ReadList, ReadScope, ReadText, ReadInteger, ParseIssuer,
      ParseRotation, ParseStatus, KeysUnique, RelationsHold;
    PlainFields(v);
    ListFields(v);
    assert Field(Norm(v), PLAIN_NAMES[0]) == Field(v, PLAIN_NAMES[0])
      && Field(Norm(v), PLAIN_NAMES[1]) == Field(v, PLAIN_NAMES[1]);
    assert Field(Norm(v), PLAIN_NAMES[2]) == Field(v, PLAIN_NAMES[2])
      && Field(Norm(v), PLAIN_NAMES[3]) == Field(v, PLAIN_NAMES[3]);
    assert Field(Norm(v), PLAIN_NAMES[4]) == Field(v, PLAIN_NAMES[4])
      && Field(Norm(v), PLAIN_NAMES[5]) == Field(v, PLAIN_NAMES[5]);
    assert Field(Norm(v), PLAIN_NAMES[6]) == Field(v, PLAIN_NAMES[6])
      && Field(Norm(v), PLAIN_NAMES[7]) == Field(v, PLAIN_NAMES[7]);
  }

  // ------------------------------------------------------------ what is signed

  /** `registrySnapshotSigningPayload`. */
  function SigningPayload(v: Json): Option<Text> {
    var s :- ParseUnsigned(v);
    var text :- Canonical(SnapshotJson(s));
    Some(Ascii("ssw-trust-registry-v1\n") + text)
  }

  lemma TextPayload(s: Snapshot)
    requires Valid(s) && Printable(SnapshotJson(s))
    ensures SigningPayload(SnapshotJson(s)).Some? && Canonical(SnapshotJson(s)).Some?
    ensures SigningPayload(SnapshotJson(s)).value == Ascii("ssw-trust-registry-v1\n") + Canonical(SnapshotJson(s)).value
  {
    hide Canonical, ParseUnsigned, Valid, SnapshotJson;
    SnapshotRoundTrip(s);
    CanonicalIsPrint(SnapshotJson(s));
  }

  /** Equal payloads are signed for equal snapshots only. */
  lemma PayloadInjective(s: Snapshot, t: Snapshot)
    requires Valid(s) && Valid(t) && WellFormed(SnapshotJson(s)) && WellFormed(SnapshotJson(t))
    ensures SigningPayload(SnapshotJson(s)).Some? && SigningPayload(SnapshotJson(t)).Some?
    ensures SigningPayload(SnapshotJson(s)) == SigningPayload(SnapshotJson(t)) <==> s == t
  {
    hide Canonical, ParseUnsigned, Valid, SnapshotJson, SigningPayload, Norm;
    ValidPrintable(s);
    ValidPrintable(t);
    TextPayload(s);
    TextPayload(t);
    if SigningPayload(SnapshotJson(s)) == SigningPayload(SnapshotJson(t)) {
      var prefix := Ascii("ssw-trust-registry-v1\n");
      assert (prefix + Canonical(SnapshotJson(s)).value)[|prefix|..] == Canonical(SnapshotJson(s)).value;
      assert (prefix + Canonical(SnapshotJson(t)).value)[|prefix|..] == Canonical(SnapshotJson(t)).value;
      CanonicalInjective(SnapshotJson(s), SnapshotJson(t));
      SameValueSameNorm(SnapshotJson(s), SnapshotJson(t));
      SnapshotRoundTrip(s);
      SnapshotRoundTrip(t);
      SnapshotStable(SnapshotJson(s));
      SnapshotStable(SnapshotJson(t));
    }
  }

  lemma ListPrintable<T>(xs: seq<T>, write: T -> Json)
    requires forall x | x in xs :: Printable(write(x))
    ensures Printable(Array(Map(xs, write)))
  {
    forall item | item in Map(xs, write) ensures Printable(item) {
      var i :| 0 <= i < |xs| && Map(xs, write)[i] == item;
      assert xs[i] in xs;
    }
  }

  lemma KeyPrintable(k: Key)
    requires ValidKey(k)
    ensures Printable(KeyJson(k))
  {
    hide IsText;
    if k.until.Some? {
      RecordPrintable(KEY_NAMES + ["authorizedUntil"], KeyValues(k) + [Number(k.until.value)]);
    } else {
      RecordPrintable(KEY_NAMES, KeyValues(k));
    }
  }

  lemma IssuerPrintable(i: Issuer)
    requires ValidIssuer(i)
    ensures Printable(IssuerJson(i))
  {
    hide ValidKey, KeyJson, IsText, Map, Distinct;
    forall s | s in i.schemas ensures Printable(SchemaJson(s)) {
      RecordPrintable(SCHEMA_NAMES, [String(s.schemaId), String(Ascii(AuthorizationName(s.status)))]);
    }
    forall k | k in i.keys ensures Printable(KeyJson(k)) {
      KeyPrintable(k);
    }
    ListPrintable(i.schemas, SchemaJson);
    ListPrintable(i.keys, KeyJson);
    ListPrintable(i.trustMarks, TextJson);
    RecordPrintable(ISSUER_NAMES, [
      String(i.issuerId), String(Ascii(AuthorizationName(i.status))), Array(Map(i.schemas, SchemaJson)),
      Array(Map(i.keys, KeyJson)), Array(Map(i.trustMarks, TextJson))]);
  }

  lemma ValidPrintable(s: Snapshot)
    requires Valid(s)
    ensures Printable(SnapshotJson(s))
  {
    hide ValidIssuer, IssuerJson, IsText, IsScope, Map, KeysUnique, RelationsHold;
    forall i | i in s.issuers ensures Printable(IssuerJson(i)) {
      IssuerPrintable(i);
    }
    forall r | r in s.rotations ensures Printable(RotationJson(r)) {
      RecordPrintable(ROTATION_NAMES,
        [String(r.issuerId), String(r.previousKeyId), String(r.newKeyId), Number(r.rotatedAt)]);
    }
    forall e | e in s.statuses ensures Printable(StatusJson(e)) {
      RecordPrintable(STATUS_NAMES, [
        String(e.issuerId), String(e.statusId), String(Ascii(CredentialStatusName(e.status))), Number(e.updatedAt)]);
    }
    ListPrintable(s.issuers, IssuerJson);
    ListPrintable(s.rotations, RotationJson);
    ListPrintable(s.statuses, StatusJson);
    RecordPrintable(SNAPSHOT_NAMES, SnapshotValues(s));
  }

  // ----------------------------------------------------------- signed snapshots

  datatype Signed = Signed(snapshot: Snapshot, signature: Text)

  /** `{ ...snapshot, signature }` */
  function SignedJson(s: Signed): Json {
    Record(SNAPSHOT_NAMES + ["signature"], SnapshotValues(s.snapshot) + [String(s.signature)])
  }

  /** `parseSignedRegistrySnapshot`. */
  function ParseSigned(v: Json): Option<Signed> {
    if !v.Object? || !HasKey(v.members, Ascii("signature")) then None
    else
      var signature :- ReadText(Field(v, "signature"), 8192);
      var snapshot :- ParseUnsigned(Object(Without(v.members, Ascii("signature"))));
      Some(Signed(snapshot, signature))
  }

  predicate ValidSigned(s: Signed) {
    Valid(s.snapshot) && IsText(s.signature, 8192)
  }

  lemma {:induction false} WithoutLast(members: seq<Member>, last: Member)
    requires forall m | m in members :: m.key != last.key
    ensures Without(members + [last], last.key) == members
  {
    if |members| == 0 {
      assert (members + [last])[1..] == [];
    } else {
      assert (members + [last])[1..] == members[1..] + [last];
      assert members[0] in members;
      WithoutLast(members[1..], last);
    }
  }

  /** What parsing sees of a signed snapshot. */
  lemma SignedParts(s: Signed)
    ensures SignedJson(s).Object? && HasKey(SignedJson(s).members, Ascii("signature"))
    ensures Object(Without(SignedJson(s).members, Ascii("signature"))) == SnapshotJson(s.snapshot)
    ensures Field(SignedJson(s), "signature") == String(s.signature)
  {
    hide SnapshotValues, Without, Get, FieldNames, IsName;
    var names, values := SNAPSHOT_NAMES, SnapshotValues(s.snapshot);
    var last := Member(Ascii("signature"), String(s.signature));
    assert SignedJson(s).members == SnapshotJson(s.snapshot).members + [last];
    SnapshotLetters();
    SignatureName();
    forall m | m in SnapshotJson(s.snapshot).members ensures m.key != last.key {
      var i :| 0 <= i < |names| && m.key == Ascii(names[i]);
      assert names[i] in names;
      if m.key == last.key {
        NameInjective(names[i], "signature");
      }
    }
    WithoutLast(SnapshotJson(s.snapshot).members, last);
    assert last in SignedJson(s).members;
    SignatureField(SnapshotJson(s.snapshot).members, last);
  }

  lemma SnapshotLetters()
    ensures forall name | name in SNAPSHOT_NAMES :: IsName(name)
  {
    hide IsName;
    SnapshotNames();
  }

  /** A signed snapshot reads back exactly, and verification rebuilds the payload that was signed. */
  lemma SignedRoundTrip(s: Signed)
    ensures ParseSigned(SignedJson(s)) == if ValidSigned(s) then Some(s) else None
    ensures ValidSigned(s) ==>
      SigningPayload(Object(Without(SignedJson(s).members, Ascii("signature"))))
        == SigningPayload(SnapshotJson(s.snapshot))
  {
    hide ParseUnsigned, Field, IsText, SigningPayload, Valid, SignedJson, SnapshotJson, Without;
    SignedParts(s);
    SnapshotRoundTrip(s.snapshot);
  }

  lemma SignatureName()
    ensures IsName("signature") && "signature" !in SNAPSHOT_NAMES
  {
    var names := SNAPSHOT_NAMES;
    assert |"signature"| == 9 && "signature"[0] == 's';
    assert names[6][0] == 'e' && names[9][0] == 'r';
    forall i | 0 <= i < |names| ensures names[i] != "signature" {
      assert i == 6 || i == 9 || |names[i]| != 9;
    }
  }

  lemma {:induction false} SignatureField(members: seq<Member>, last: Member)
    requires forall m | m in members :: m.key != last.key
    ensures Get(members + [last], last.key) == last.value
  {
    if |members| > 0 {
      assert (members + [last])[1..] == members[1..] + [last];
      assert members[0] in members;
      SignatureField(members[1..], last);
    }
  }
}
