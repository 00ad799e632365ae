/** Exactly which objects are read as registry snapshots, and as which. */
module RegistryChecks {
  import opened Strings
  import opened Wrappers
  import opened Json
  import opened Records
  import opened TrustSnapshot
  import opened KeyRotation

  // ------------------------------------------------------------------- shapes

  predicate Named(v: Json, name: string) {
    v.Object? && exists m | m in v.members :: m.key == Ascii(name)
  }

  /** Every one of these properties, and beside them at most those. */
  predicate HasShape(v: Json, required: seq<string>, optional: seq<string>) {
    OnlyNamed(v, required + optional) && forall i | 0 <= i < |required| :: Named(v, required[i])
  }

  lemma ShapeExactly(v: Json, required: seq<string>, optional: seq<string>)
    ensures Shaped(v, required, optional) <==> HasShape(v, required, optional)
  {
    hide Keys, OnlyNamed, Ascii;
    OnlyNamedExactly(v, required + optional);
    OnlyObjects(v, required + optional);
    forall name | name in required ensures exists i | 0 <= i < |required| :: required[i] == name {}
    forall i | 0 <= i < |required| ensures required[i] in required {}
  }

  lemma OnlyObjects(v: Json, names: seq<string>)
    ensures OnlyNamed(v, names) ==> v.Object?
  {}

  /** A text without control characters. */
  predicate TextIs(v: Json, t: Text, limit: nat) {
    v == String(t) && t != [] && |t| <= limit && !HasControl(t)
  }

  predicate ScopeIs(v: Json, t: Text) {
    v == String(t) && IsScope(t)
  }

  predicate NumberIs(v: Json, n: int, least: nat) {
    v == Number(n) && n >= least && n <= 9007199254740991
  }

  lemma ReadExactly(v: Json, t: Text, limit: nat, n: int, least: nat)
    ensures ReadText(v, limit) == Some(t) <==> TextIs(v, t, limit)
    ensures ReadScope(v) == Some(t) <==> ScopeIs(v, t)
    ensures ReadInteger(v, least) == Some(n) <==> NumberIs(v, n, least)
  {
    hide IsScope, HasControl;
  }

  /** A list of at most so many items, each of which shows its value. */
  predicate ListIs<T(!new)>(v: Json, xs: seq<T>, limit: nat, shows: (Json, T) -> bool) {
    && v.Array? && |v.items| <= limit && |xs| == |v.items|
    && forall i | 0 <= i < |xs| :: shows(v.items[i], xs[i])
  }

  lemma ListExactly<T(!new)>(v: Json, xs: seq<T>, limit: nat, read: Json -> Option<T>, shows: (Json, T) -> bool)
    requires forall item, x :: read(item) == Some(x) <==> shows(item, x)
    ensures ReadList(v, limit, read) == Some(xs) <==> ListIs(v, xs, limit, shows)
  {
    if v.Array? {
      ReadAllExactly(v.items, read, xs);
    }
  }

  // -------------------------------------------------------------------- words

  lemma WordsDiffer()
    ensures Ascii("active") != Ascii("suspended") && Ascii("active") != Ascii("revoked")
    ensures Ascii("suspended") != Ascii("revoked") && Ascii("active") != Ascii("retired")
    ensures Ascii("retired") != Ascii("revoked") && Ascii("valid") != Ascii("suspended")
    ensures Ascii("valid") != Ascii("revoked")
  {
    assert |Ascii("active")| == 6 && |Ascii("suspended")| == 9 && |Ascii("revoked")| == 7;
    assert |Ascii("retired")| == 7 && |Ascii("valid")| == 5;
    assert Ascii("revoked")[2] == 'v' as int && Ascii("retired")[2] == 't' as int;
  }

  predicate AuthorizationIs(v: Json, a: Authorization) {
    match a
    case Active => v == String(Ascii("active"))
    case Suspended => v == String(Ascii("suspended"))
    case Revoked => v == String(Ascii("revoked"))
  }

  predicate KeyStatusIs(v: Json, k: KeyStatus) {
    match k
    case Usable => v == String(Ascii("active"))
    case Retired => v == String(Ascii("retired"))
    case Withdrawn => v == String(Ascii("revoked"))
  }

  predicate CredentialStatusIs(v: Json, c: CredentialStatus) {
    match c
    case Good => v == String(Ascii("valid"))
    case OnHold => v == String(Ascii("suspended"))
    case Ended => v == String(Ascii("revoked"))
  }

  lemma WordExactly(v: Json, a: Authorization, k: KeyStatus, c: CredentialStatus)
    ensures ReadAuthorization(v) == Some(a) <==> AuthorizationIs(v, a)
    ensures ReadKeyStatus(v) == Some(k) <==> KeyStatusIs(v, k)
    ensures ReadCredentialStatus(v) == Some(c) <==> CredentialStatusIs(v, c)
  {
    hide Ascii;
    WordsDiffer();
  }

  // -------------------------------------------------------------------- parts

  predicate SchemaIs(v: Json, s: Schema) {
    && HasShape(v, ["schemaId", "status"], [])
    && TextIs(Field(v, "schemaId"), s.schemaId, 512) && AuthorizationIs(Field(v, "status"), s.status)
  }

  lemma SchemaExactly(v: Json, s: Schema)
    ensures ParseSchema(v) == Some(s) <==> SchemaIs(v, s)
  {
    hide Shaped, HasShape, Field, TextIs, AuthorizationIs, ReadText, ReadAuthorization;
    ShapeExactly(v, ["schemaId", "status"], []);
    ReadExactly(Field(v, "schemaId"), s.schemaId, 512, 0, 0);
    WordExactly(Field(v, "status"), s.status, Usable, Good);
  }

  /** A key ends after it starts, if it ends, and a retired one does. */
  predicate KeyIs(v: Json, k: Key) {
    && HasShape(v, ["keyId", "status", "authorizedFrom"], ["authorizedUntil"])
    && TextIs(Field(v, "keyId"), k.keyId, 512) && KeyStatusIs(Field(v, "status"), k.status)
    && NumberIs(Field(v, "authorizedFrom"), k.from, 0)
    && match k.until
       case None => Field(v, "authorizedUntil").Undefined? && k.status != Retired
       case Some(until) => NumberIs(Field(v, "authorizedUntil"), until, 0) && until > k.from
  }

  lemma KeyExactly(v: Json, k: Key)
    ensures ParseKey(v) == Some(k) <==> KeyIs(v, k)
  {
    hide Shaped, HasShape, Field, TextIs, KeyStatusIs, ReadText, ReadKeyStatus, ReadInteger, NumberIs;
    ShapeExactly(v, KEY_NAMES, ["authorizedUntil"]);
    ReadExactly(Field(v, "keyId"), k.keyId, 512, 0, 0);
    WordExactly(Field(v, "status"), Active, k.status, Good);
    ReadExactly(Field(v, "authorizedFrom"), [], 0, k.from, 0);
    UntilExactly(Field(v, "authorizedUntil"), k.until);
  }

  lemma UntilExactly(v: Json, until: Option<int>)
    ensures ReadUntil(v) == Some(until) <==>
      match until
      case None => v == Undefined
      case Some(n) => NumberIs(v, n, 0)
  {}

  predicate MarkIs(v: Json, t: Text) {
    TextIs(v, t, 128)
  }

  predicate NoneTwice(ids: seq<Text>) {
    forall i: nat, j: nat | i < |ids| && j < |ids| && ids[i] == ids[j] :: i == j
  }

  predicate IssuerIs(v: Json, i: Issuer) {
    && HasShape(v, ["issuerId", "status", "schemas", "keys", "trustMarks"], [])
    && TextIs(Field(v, "issuerId"), i.issuerId, 512) && AuthorizationIs(Field(v, "status"), i.status)
    && ListIs(Field(v, "schemas"), i.schemas, 10000, SchemaIs) && ListIs(Field(v, "keys"), i.keys, 10000, KeyIs)
    && ListIs(Field(v, "trustMarks"), i.trustMarks, 128, MarkIs)
    && (forall m: nat, n: nat | m < |i.schemas| && n < |i.schemas| && i.schemas[m].schemaId == i.schemas[n].schemaId ::
          m == n)
    && (forall m: nat, n: nat | m < |i.keys| && n < |i.keys| && i.keys[m].keyId == i.keys[n].keyId :: m == n)
    && NoneTwice(i.trustMarks)
  }

  lemma DistinctExactly(ids: seq<Text>)
    ensures Distinct(ids) <==> NoneTwice(ids)
  {}

  lemma IdsDistinct(i: Issuer)
    ensures Distinct(SchemaIds(i.schemas)) <==>
      forall m: nat, n: nat | m < |i.schemas| && n < |i.schemas| && i.schemas[m].schemaId == i.schemas[n].schemaId ::
        m == n
    ensures Distinct(KeyIds(i.keys)) <==>
      forall m: nat, n: nat | m < |i.keys| && n < |i.keys| && i.keys[m].keyId == i.keys[n].keyId :: m == n
  {
    var (schemas, keys) := (SchemaIds(i.schemas), KeyIds(i.keys));
    forall m | 0 <= m < |i.schemas| ensures schemas[m] == i.schemas[m].schemaId {}
    forall m | 0 <= m < |i.keys| ensures keys[m] == i.keys[m].keyId {}
    DistinctExactly(schemas);
    DistinctExactly(keys);
  }

  lemma IssuerExactly(v: Json, i: Issuer)
    ensures ParseIssuer(v) == Some(i) <==> IssuerIs(v, i)
  {
    hide Shaped, HasShape, Field, TextIs, AuthorizationIs, ReadText, ReadAuthorization, ReadList, ListIs, SchemaIs,
      KeyIs, MarkIs, ParseSchema, ParseKey, ParseTrustMark, Distinct, NoneTwice, SchemaIds, KeyIds;
    ShapeExactly(v, ISSUER_NAMES, []);
    ReadExactly(Field(v, "issuerId"), i.issuerId, 512, 0, 0);
    WordExactly(Field(v, "status"), i.status, Usable, Good);
    forall item, s ensures ParseSchema(item) == Some(s) <==> SchemaIs(item, s) {
      SchemaExactly(item, s);
    }
    forall item, k ensures ParseKey(item) == Some(k) <==> KeyIs(item, k) {
      KeyExactly(item, k);
    }
    forall item, t ensures ParseTrustMark(item) == Some(t) <==> MarkIs(item, t) {
      MarkExactly(item, t);
    }
    ListExactly(Field(v, "schemas"), i.schemas, 10000, ParseSchema, SchemaIs);
    ListExactly(Field(v, "keys"), i.keys, 10000, ParseKey, KeyIs);
    ListExactly(Field(v, "trustMarks"), i.trustMarks, 128, ParseTrustMark, MarkIs);
    IdsDistinct(i);
    DistinctExactly(i.trustMarks);
  }

  lemma MarkExactly(v: Json, t: Text)
    ensures ParseTrustMark(v) == Some(t) <==> MarkIs(v, t)
  {
    ReadExactly(v, t, 128, 0, 0);
  }

  predicate RotationIs(v: Json, r: Rotation) {
    && HasShape(v, ["issuerId", "previousKeyId", "newKeyId", "rotatedAt"], [])
    && TextIs(Field(v, "issuerId"), r.issuerId, 512) && TextIs(Field(v, "previousKeyId"), r.previousKeyId, 512)
    && TextIs(Field(v, "newKeyId"), r.newKeyId, 512) && r.previousKeyId != r.newKeyId
    && NumberIs(Field(v, "rotatedAt"), r.rotatedAt, 0)
  }

  lemma RotationExactly(v: Json, r: Rotation)
    ensures ParseRotation(v) == Some(r) <==> RotationIs(v, r)
  {
    hide Shaped, HasShape, Field, TextIs, ReadText, ReadInteger, NumberIs;
    ShapeExactly(v, ROTATION_NAMES, []);
    ReadExactly(Field(v, "issuerId"), r.issuerId, 512, 0, 0);
    ReadExactly(Field(v, "previousKeyId"), r.previousKeyId, 512, 0, 0);
    ReadExactly(Field(v, "newKeyId"), r.newKeyId, 512, 0, 0);
    ReadExactly(Field(v, "rotatedAt"), [], 0, r.rotatedAt, 0);
  }

  predicate EntryIs(v: Json, e: StatusEntry) {
    && HasShape(v, ["issuerId", "statusId", "status", "updatedAt"], [])
    && TextIs(Field(v, "issuerId"), e.issuerId, 512) && ScopeIs(Field(v, "statusId"), e.statusId)
    && CredentialStatusIs(Field(v, "status"), e.status) && NumberIs(Field(v, "updatedAt"), e.updatedAt, 0)
  }

  lemma EntryExactly(v: Json, e: StatusEntry)
    ensures ParseStatus(v) == Some(e) <==> EntryIs(v, e)
  {
    hide Shaped, HasShape, Field, TextIs, ScopeIs, CredentialStatusIs, ReadText, ReadScope, ReadInteger,
      ReadCredentialStatus, NumberIs;
    ShapeExactly(v, STATUS_NAMES, []);
    ReadExactly(Field(v, "issuerId"), e.issuerId, 512, 0, 0);
    ReadExactly(Field(v, "statusId"), e.statusId, 0, 0, 0);
    WordExactly(Field(v, "status"), Active, Usable, e.status);
    ReadExactly(Field(v, "updatedAt"), [], 0, e.updatedAt, 0);
  }

  // ---------------------------------------------------------------- relations

  /** No issuer, no predecessor or successor of an issuer's keys, and no status entry occurs twice. */
  ghost predicate NothingTwice(s: Snapshot) {
    && (forall i, j | 0 <= i < j < |s.issuers| :: s.issuers[i].issuerId != s.issuers[j].issuerId)
    && (forall i, j | 0 <= i < j < |s.rotations| && s.rotations[i].issuerId == s.rotations[j].issuerId ::
          s.rotations[i].previousKeyId != s.rotations[j].previousKeyId
          && s.rotations[i].newKeyId != s.rotations[j].newKeyId)
    && (forall i, j | 0 <= i < j < |s.statuses| && s.statuses[i].issuerId == s.statuses[j].issuerId ::
          s.statuses[i].statusId != s.statuses[j].statusId)
  }

  /** A rotation is from a key of its issuer that retired at that time to one that starts then, and lies in the past
      of the snapshot. */
  predicate Rotated(s: Snapshot, r: Rotation, i: Issuer, previous: Key, next: Key) {
    && i in s.issuers && i.issuerId == r.issuerId
    && previous in i.keys && previous.keyId == r.previousKeyId && next in i.keys && next.keyId == r.newKeyId
    && previous.status == Retired && previous.until == Some(r.rotatedAt) && next.from == r.rotatedAt
    && s.issuedAt >= r.rotatedAt
  }

  ghost predicate RotationStands(s: Snapshot, r: Rotation) {
    exists i, previous, next :: Rotated(s, r, i, previous, next)
  }

  predicate EntryStands(s: Snapshot, e: StatusEntry) {
    s.issuedAt >= e.updatedAt && exists i | i in s.issuers :: i.issuerId == e.issuerId
  }

  lemma OneIssuer(s: Snapshot, i: Issuer)
    requires NothingTwice(s) && i in s.issuers
    ensures FindIssuer(s.issuers, i.issuerId) == Some(i)
  {
    var found := FindIssuer(s.issuers, i.issuerId).value;
    var m, n :| 0 <= m < |s.issuers| && 0 <= n < |s.issuers| && s.issuers[m] == found && s.issuers[n] == i;
  }

  lemma OneKey(i: Issuer, k: Key)
    requires Distinct(KeyIds(i.keys)) && k in i.keys
    ensures FindKey(i.keys, k.keyId) == Some(k)
  {
    IdsDistinct(i);
    var found := FindKey(i.keys, k.keyId).value;
    var m, n :| 0 <= m < |i.keys| && 0 <= n < |i.keys| && i.keys[m] == found && i.keys[n] == k;
  }

  lemma RotationStandsExactly(s: Snapshot, r: Rotation)
    requires NothingTwice(s) && forall i | i in s.issuers :: ValidIssuer(i)
    ensures RotationMatches(s, r) <==> RotationStands(s, r)
  {
    hide NothingTwice, Distinct, KeyIds, SchemaIds;
    if RotationMatches(s, r) {
      var i := FindIssuer(s.issuers, r.issuerId).value;
      assert Rotated(s, r, i, FindKey(i.keys, r.previousKeyId).value, FindKey(i.keys, r.newKeyId).value);
    }
    if i, previous, next :| Rotated(s, r, i, previous, next) {
      OneIssuer(s, i);
      OneKey(i, previous);
      OneKey(i, next);
    }
  }

  lemma RelationsExactly(s: Snapshot)
    requires ValidParts(s)
    ensures KeysUnique(s) && RelationsHold(s) <==>
      && NothingTwice(s) && (forall r | r in s.rotations :: RotationStands(s, r))
      && (forall e | e in s.statuses :: EntryStands(s, e))
  {
    hide KeysUnique, ValidIssuer, ValidRotation, ValidStatus, RotationMatches, RotationStands;
    KeysUniqueExactly(s);
    if NothingTwice(s) {
      forall r | r in s.rotations ensures RotationMatches(s, r) <==> RotationStands(s, r) {
        RotationStandsExactly(s, r);
      }
      forall e | e in s.statuses ensures StatusMatches(s, e) <==> EntryStands(s, e) {}
    }
  }

  // ---------------------------------------------------------------- snapshots

  predicate HeaderIs(v: Json, s: Snapshot) {
    && Field(v, "schemaVersion") == Number(1)
    && ScopeIs(Field(v, "snapshotId"), s.snapshotId) && ScopeIs(Field(v, "tenantId"), s.tenantId)
    && ScopeIs(Field(v, "jurisdiction"), s.jurisdiction) && NumberIs(Field(v, "sequence"), s.sequence, 1)
    && NumberIs(Field(v, "issuedAt"), s.issuedAt, 0) && NumberIs(Field(v, "expiresAt"), s.expiresAt, 0)
    && s.issuedAt < s.expiresAt && TextIs(Field(v, "signingKeyId"), s.signingKeyId, 256)
  }

  predicate BodyIs(v: Json, s: Snapshot) {
    && ListIs(Field(v, "issuers"), s.issuers, 10000, IssuerIs)
    && ListIs(Field(v, "rotations"), s.rotations, 10000, RotationIs)
    && ListIs(Field(v, "statuses"), s.statuses, 10000, EntryIs)
  }

  /** An object with the properties of a snapshot and no others. */
  predicate SnapshotShape(v: Json) {
    HasShape(v, ["schemaVersion", "snapshotId", "tenantId", "jurisdiction", "sequence", "issuedAt", "expiresAt",
                 "signingKeyId", "issuers", "rotations", "statuses"], [])
  }

  lemma ListsExactly(v: Json, s: Snapshot)
    ensures BodyIs(v, s) <==>
      && ReadList(Field(v, "issuers"), 10000, ParseIssuer) == Some(s.issuers)
      && ReadList(Field(v, "rotations"), 10000, ParseRotation) == Some(s.rotations)
      && ReadList(Field(v, "statuses"), 10000, ParseStatus) == Some(s.statuses)
  {
    hide Field, ReadList, ListIs, IssuerIs, RotationIs, EntryIs, ParseIssuer, ParseRotation, ParseStatus;
    forall item, i ensures ParseIssuer(item) == Some(i) <==> IssuerIs(item, i) {
      IssuerExactly(item, i);
    }
    forall item, r ensures ParseRotation(item) == Some(r) <==> RotationIs(item, r) {
      RotationExactly(item, r);
    }
    forall item, e ensures ParseStatus(item) == Some(e) <==> EntryIs(item, e) {
      EntryExactly(item, e);
    }
    ListExactly(Field(v, "issuers"), s.issuers, 10000, ParseIssuer, IssuerIs);
    ListExactly(Field(v, "rotations"), s.rotations, 10000, ParseRotation, RotationIs);
    ListExactly(Field(v, "statuses"), s.statuses, 10000, ParseStatus, EntryIs);
  }

  lemma BodyValid(v: Json, s: Snapshot)
    requires BodyIs(v, s)
    ensures ValidParts(s)
  {
    hide Field, ReadList, ListIs, ParseIssuer, ParseRotation, ParseStatus, ValidIssuer, ValidRotation, ValidStatus,
      BodyIs;
    ListsExactly(v, s);
    forall item ensures ParseIssuer(item).Some? ==> ValidIssuer(ParseIssuer(item).value) {
      ParsedIssuerValid(item);
    }
    forall item ensures ParseRotation(item).Some? ==> ValidRotation(ParseRotation(item).value) {
      ParsedRotationValid(item);
    }
    forall item ensures ParseStatus(item).Some? ==> ValidStatus(ParseStatus(item).value) {
      ParsedStatusValid(item);
    }
    ReadListGives(Field(v, "issuers"), 10000, ParseIssuer, ValidIssuer);
    ReadListGives(Field(v, "rotations"), 10000, ParseRotation, ValidRotation);
    ReadListGives(Field(v, "statuses"), 10000, ParseStatus, ValidStatus);
  }

  lemma HeaderExactly(v: Json, s: Snapshot)
    ensures HeaderIs(v, s) <==>
      && Field(v, "schemaVersion") == Number(1)
      && ReadScope(Field(v, "snapshotId")) == Some(s.snapshotId) && ReadScope(Field(v, "tenantId")) == Some(s.tenantId)
      && ReadScope(Field(v, "jurisdiction")) == Some(s.jurisdiction)
      && ReadInteger(Field(v, "sequence"), 1) == Some(s.sequence)
      && ReadInteger(Field(v, "issuedAt"), 0) == Some(s.issuedAt)
      && ReadInteger(Field(v, "expiresAt"), 0) == Some(s.expiresAt) && s.issuedAt < s.expiresAt
      && ReadText(Field(v, "signingKeyId"), 256) == Some(s.signingKeyId)
  {
    hide Field, TextIs, ScopeIs, NumberIs, ReadText, ReadScope, ReadInteger;
    ReadExactly(Field(v, "snapshotId"), s.snapshotId, 0, 0, 0);
    ReadExactly(Field(v, "tenantId"), s.tenantId, 0, 0, 0);
    ReadExactly(Field(v, "jurisdiction"), s.jurisdiction, 0, 0, 0);
    ReadExactly(Field(v, "sequence"), [], 0, s.sequence, 1);
    ReadExactly(Field(v, "issuedAt"), [], 0, s.issuedAt, 0);
    ReadExactly(Field(v, "expiresAt"), [], 0, s.expiresAt, 0);
    ReadExactly(Field(v, "signingKeyId"), s.signingKeyId, 256, 0, 0);
  }

  /** An object is read as a snapshot exactly when it has its properties and no others, every part of it reads, no id
      occurs twice, and its rotations and status entries stand. */
  lemma SnapshotExactly(v: Json, s: Snapshot)
    ensures ParseUnsigned(v) == Some(s) <==>
      && SnapshotShape(v) && HeaderIs(v, s) && BodyIs(v, s) && NothingTwice(s)
      && (forall r | r in s.rotations :: RotationStands(s, r)) && (forall e | e in s.statuses :: EntryStands(s, e))
  {
    hide Field, Shaped, HasShape, ReadText, ReadScope, ReadInteger, ReadList, ParseIssuer, ParseRotation, ParseStatus,
      KeysUnique, RelationsHold, HeaderIs, BodyIs, NothingTwice, RotationStands, EntryStands, ValidParts;
    ShapeExactly(v, SNAPSHOT_NAMES, []);
    HeaderExactly(v, s);
    ListsExactly(v, s);
    if BodyIs(v, s) {
      BodyValid(v, s);
      RelationsExactly(s);
    }
  }

  /** A signed snapshot is an object with a signature that is a snapshot without it. */
  lemma SignedExactly(v: Json, s: Signed)
    ensures ParseSigned(v) == Some(s) <==>
      && Named(v, "signature") && TextIs(Field(v, "signature"), s.signature, 8192)
      && ParseUnsigned(Object(Without(v.members, Ascii("signature")))) == Some(s.snapshot)
  {
    hide Field, ReadText, TextIs, ParseUnsigned, Ascii, Without;
    ReadExactly(Field(v, "signature"), s.signature, 8192, 0, 0);
  }
}
