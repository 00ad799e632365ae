/** The credential vault: entries sealed under their metadata, migration, backup and restore. */
module CredentialVault {
  import opened Strings
  import opened Wrappers
  import opened Json
  import opened CanonicalForm
  import opened Records
  import opened Base64Url
  import opened VaultEnvelope

  /** The index fields in insertion order, and the sealed credential. */
  datatype Entry = Entry(metadata: seq<Member>, envelope: Envelope<seq<int>>)

  type Entries = map<Text, Entry>

  datatype Opened = Opened(metadata: seq<Member>, credential: Json)

  // ---------------------------------------------------------------- metadata

  predicate Truthy(v: Json) {
    match v
    case Undefined => false
    case Null => false
    case Bool(b) => b
    case Number(n) => n != 0
    case String(s) => |s| > 0
    case _ => true
  }

  const REQUIRED_NAMES: seq<string> := ["id", "credentialType", "issuer"]

  function EntryNames(metadata: seq<Member>): seq<string> {
    REQUIRED_NAMES
    + (if Truthy(Get(metadata, Ascii("issuedAt"))) then ["issuedAt"] else [])
    + (if Truthy(Get(metadata, Ascii("expiresAt"))) then ["expiresAt"] else [])
  }

  function FieldsOf(metadata: seq<Member>, names: seq<string>): (r: seq<Json>)
    ensures |r| == |names| && forall i | 0 <= i < |r| :: r[i] == Get(metadata, Ascii(names[i]))
  {
    seq(|names|, i requires 0 <= i < |names| => Get(metadata, Ascii(names[i])))
  }

  /** `entryMetadata`: the known fields in a fixed order, the optional ones only when not empty. */
  function EntryMetadata(metadata: seq<Member>): seq<Member> {
    Record(EntryNames(metadata), FieldsOf(metadata, EntryNames(metadata))).members
  }

  /** Metadata as the type has it: each field once, strings or undefined. */
  predicate Typed(metadata: seq<Member>) {
    && DistinctKeys(metadata)
    && forall m | m in metadata :: Units(m.key) && (m.value == Undefined || (m.value.String? && Units(m.value.s)))
  }

  /** The fields `put` insists on. */
  predicate Named(metadata: seq<Member>) {
    forall name | name in REQUIRED_NAMES :: Truthy(Get(metadata, Ascii(name)))
  }

  /** Field order, and no extra or empty field: what `entryMetadata` returns unchanged, but for undefined fields. */
  predicate Proper(metadata: seq<Member>) {
    Typed(metadata) && Named(metadata) && Live(metadata) == EntryMetadata(metadata)
  }

  /** `metadataBytes`; JSON.stringify drops undefined fields. */
  function MetadataBytes(metadata: seq<Member>): seq<int> {
    JsonBytes(Object(Live(metadata)))
  }

  function MetadataMatches(metadata: seq<Member>, e: Envelope<seq<int>>): bool {
    e.aad == Some(EncodeBytes(MetadataBytes(metadata)))
  }

  lemma AllNames()
    ensures FieldNames(["id", "credentialType", "issuer", "issuedAt", "expiresAt"])
  {
    var names := ["id", "credentialType", "issuer", "issuedAt", "expiresAt"];
    assert forall name | name in names :: IsName(name);
  }

  lemma EntryFieldNames(metadata: seq<Member>)
    ensures FieldNames(EntryNames(metadata))
  {
    hide Truthy, Get;
    AllNames();
    var all := ["id", "credentialType", "issuer", "issuedAt", "expiresAt"];
    var names := EntryNames(metadata);
    assert names == all || names == all[..4] || names == all[..3] || names == all[..3] + all[4..];
    forall name | name in names ensures name in all {}
    forall i, j | 0 <= i < j < |names| ensures names[i] != names[j] {}
  }

  lemma {:induction false} GetTyped(metadata: seq<Member>, key: Text)
    requires forall m | m in metadata :: m.value == Undefined || (m.value.String? && Units(m.value.s))
    ensures Get(metadata, key) == Undefined || (Get(metadata, key).String? && Units(Get(metadata, key).s))
  {
    if |metadata| > 0 {
      assert metadata[0] in metadata;
      GetTyped(metadata[1..], key);
    }
  }

  /** The metadata objects that are serialised have no undefined part. */
  lemma MetadataClean(metadata: seq<Member>)
    requires Typed(metadata) && Named(metadata)
    ensures Clean(Object(Live(metadata))) && Clean(Object(EntryMetadata(metadata)))
    ensures Live(EntryMetadata(metadata)) == EntryMetadata(metadata)
  {
    hide Get, Truthy, Named, EntryMetadata;
    LiveDistinct(metadata);
    StringsClean(Live(metadata));
    EntryStrings(metadata);
    StringsClean(EntryMetadata(metadata));
    LiveAll(EntryMetadata(metadata));
  }

  lemma StringsClean(members: seq<Member>)
    requires DistinctKeys(members) && forall m | m in members :: Units(m.key) && m.value.String? && Units(m.value.s)
    ensures Clean(Object(members))
  {}

  lemma EntryStrings(metadata: seq<Member>)
    requires Typed(metadata) && Named(metadata)
    ensures DistinctKeys(EntryMetadata(metadata))
    ensures forall m | m in EntryMetadata(metadata) :: Units(m.key) && m.value.String? && Units(m.value.s)
  {
    hide Get, Truthy, FieldNames, EntryNames, Named;
    var names := EntryNames(metadata);
    var values := FieldsOf(metadata, names);
    EntryFieldNames(metadata);
    RecordKeys(names, values);
    forall m | m in EntryMetadata(metadata) ensures Units(m.key) && m.value.String? && Units(m.value.s) {
      var i :| 0 <= i < |names| && m == Member(Ascii(names[i]), values[i]);
      GetTyped(metadata, Ascii(names[i]));
      NameTruthy(metadata, names[i]);
    }
  }

  lemma NameTruthy(metadata: seq<Member>, name: string)
    requires Named(metadata) && name in EntryNames(metadata)
    ensures Get(metadata, Ascii(name)) != Undefined
  {
    hide Get;
  }

  lemma {:induction false} GetLive(members: seq<Member>, key: Text)
    requires DistinctKeys(members)
    ensures Get(Live(members), key) == Get(members, key)
  {
    if |members| > 0 {
      var tail := members[1..];
      forall i, j | 0 <= i < j < |tail| ensures tail[i].key != tail[j].key {
        assert tail[i] == members[i + 1] && tail[j] == members[j + 1];
      }
      GetLive(tail, key);
      if members[0].value == Undefined && members[0].key == key {
        forall m | m in tail ensures m.key != key {
          var i :| 0 <= i < |tail| && tail[i] == m;
          assert members[i + 1] == m;
        }
        GetAbsent(tail, key);
      }
    }
  }

  /** Dropping undefined fields changes nothing that is read of metadata. */
  lemma LiveMetadata(metadata: seq<Member>)
    requires Typed(metadata) && Named(metadata)
    ensures Typed(Live(metadata)) && Named(Live(metadata))
    ensures EntryMetadata(Live(metadata)) == EntryMetadata(metadata) && IdOf(Live(metadata)) == IdOf(metadata)
    ensures Live(Live(metadata)) == Live(metadata)
  {
    hide Get, Truthy;
    LiveDistinct(metadata);
    LiveAll(Live(metadata));
    forall name: string ensures Get(Live(metadata), Ascii(name)) == Get(metadata, Ascii(name)) {
      GetLive(metadata, Ascii(name));
    }
    assert FieldsOf(Live(metadata), EntryNames(metadata)) == FieldsOf(metadata, EntryNames(metadata));
  }

  lemma {:induction false} LiveAll(members: seq<Member>)
    requires forall m | m in members :: m.value != Undefined
    ensures Live(members) == members
  {
    if |members| > 0 {
      assert members[0] in members;
      LiveAll(members[1..]);
    }
  }

  /** The metadata check of an entry made from `metadata` passes exactly when the metadata is proper. */
  lemma MatchesExactly(metadata: seq<Member>)
    requires Typed(metadata) && Named(metadata)
    ensures EncodeBytes(MetadataBytes(metadata)) == EncodeBytes(MetadataBytes(EntryMetadata(metadata)))
      <==> Proper(metadata)
  {
    hide EncodeBytes, JsonBytes, Typed, Named, Live, EntryMetadata;
    MetadataClean(metadata);
    JsonBytesInjective(Object(Live(metadata)), Object(EntryMetadata(metadata)));
  }

  // -------------------------------------------------------------- operations

  datatype VaultError = InvalidMetadata | CreationFailed | NotFound | CannotOpen | MigrationFailed | BackupFailed

  function IdOf(metadata: seq<Member>): Text {
    match Get(metadata, Ascii("id")) case String(s) => s case _ => []
  }

  function PutIn(entries: Entries, metadata: seq<Member>, credential: Json, o: Options): Result<Entries, VaultError> {
    if !Named(metadata) then Err(InvalidMetadata)
    else
      match CreateEnvelope(JsonBytes(credential), o, MetadataBytes(metadata))
      case None => Err(CreationFailed)
      case Some(envelope) => Ok(entries[IdOf(metadata) := Entry(metadata, envelope)])
  }

  function OpenEntry(e: Entry, secret: Secret, rounding: Rounding): Option<Opened> {
    if !MetadataMatches(EntryMetadata(e.metadata), e.envelope) then None
    else
      var bs :- OpenEnvelope(e.envelope, secret);
      var credential :- FromJsonBytes(bs, rounding);
      Some(Opened(EntryMetadata(e.metadata), credential))
  }

  function GetFrom(entries: Entries, id: Text, secret: Secret, rounding: Rounding): Result<Opened, VaultError> {
    if id !in entries then Err(NotFound)
    else match OpenEntry(entries[id], secret, rounding) case None => Err(CannotOpen) case Some(r) => Ok(r)
  }

  function Resealed(e: Entry, current: Secret, next: Options): Option<Entry> {
    if !MetadataMatches(EntryMetadata(e.metadata), e.envelope) then None
    else
      var plain :- OpenEnvelope(e.envelope, current);
      var envelope :- CreateEnvelope(plain, next, MetadataBytes(EntryMetadata(e.metadata)));
      Some(e.(envelope := envelope))
  }

  function MigrateIn(entries: Entries, id: Text, current: Secret, next: Options): (Entries, Result<(), VaultError>) {
    if id !in entries then (entries, Err(NotFound))
    else
      match Resealed(entries[id], current, next)
      case None => (entries, Err(MigrationFailed))
      case Some(e) => (entries[id := e], Ok(()))
  }

  // ------------------------------------------------------------------ backup

  /** `order` is the insertion order of the map; the payload is the list of entries, whose JSON drops
      undefined metadata and otherwise loses nothing. */
  datatype Backup = Backup(versionOk: bool, sequence: int, createdAt: Text, envelope: Envelope<seq<Entry>>)

  const BACKUP_NAMES: seq<string> := ["kind", "backupVersion", "sequence", "createdAt"]

  function BackupHeader(sequence: int, createdAt: Text): Json {
    Record(BACKUP_NAMES, [String(Ascii("ssw-credential-vault-backup")), Number(1), Number(sequence), String(createdAt)])
  }

  function BackupAad(sequence: int, createdAt: Text): seq<int> {
    JsonBytes(BackupHeader(sequence, createdAt))
  }

  /** `isVaultEntry`. */
  predicate IsVaultEntry(e: Entry) {
    && !HasKey(e.metadata, Ascii("credential"))
    && (forall name | name in REQUIRED_NAMES :: Get(e.metadata, Ascii(name)).String?)
    && e.envelope.version == VERSION && e.envelope.aesGcm
  }

  function Serialised(e: Entry): Entry {
    e.(metadata := Live(e.metadata))
  }

  function Listed(entries: Entries, order: seq<Text>): (r: seq<Entry>)
    requires forall id | id in order :: id in entries
    ensures |r| == |order| && forall i | 0 <= i < |r| :: r[i] == Serialised(entries[order[i]])
  {
    seq(|order|, i requires 0 <= i < |order| => Serialised(entries[order[i]]))
  }

  predicate ValidSequence(n: int) {
    IsSafeInteger(n) && n >= 1
  }

  function ExportFrom(entries: Entries, order: seq<Text>, o: Options, sequence: int, createdAt: Text, dateOk: bool):
    Result<Backup, VaultError>
    requires forall id | id in order :: id in entries
  {
    if !ValidSequence(sequence) || !dateOk || exists id | id in order :: !IsVaultEntry(entries[id]) then
      Err(BackupFailed)
    else
      match CreateEnvelope(Listed(entries, order), o, BackupAad(sequence, createdAt))
      case None => Err(BackupFailed)
      case Some(envelope) => Ok(Backup(true, sequence, createdAt, envelope))
  }

  /** `new Map(entries.map((entry) => [entry.id, entry]))`: the last entry of an id wins. */
  function FromList(list: seq<Entry>): Entries {
    if |list| == 0 then map[]
    else
      var last := list[|list| - 1];
      FromList(list[..|list| - 1])[IdOf(last.metadata) := last]
  }

  function OpenBackup(b: Backup, secret: Secret, minimum: Option<int>): Option<seq<Entry>> {
    if !b.versionOk || !ValidSequence(b.sequence) || (minimum.Some? && b.sequence < minimum.value) then None
    else
      var list :- OpenEnvelope(b.envelope, secret);
      if b.envelope.aad != Some(EncodeBytes(BackupAad(b.sequence, b.createdAt))) then None
      else if exists e | e in list :: !IsVaultEntry(e) then None
      else Some(list)
  }

  function RestoreIn(entries: Entries, b: Backup, secret: Secret, minimum: Option<int>): Result<Entries, VaultError> {
    match OpenBackup(b, secret, minimum)
    case None => Err(BackupFailed)
    case Some(list) => Ok(FromList(list))
  }

  // --------------------------------------------------------------- the class

  class InMemoryVaultStore {
    var entries: Entries

    constructor ()
      ensures entries == map[]
    {
      entries := map[];
    }

    method Put(metadata: seq<Member>, credential: Json, o: Options) returns (r: Result<(), VaultError>)
      modifies this
      ensures match PutIn(old(entries), metadata, credential, o)
        case Ok(next) => entries == next && r == Ok(())
        case Err(error) => entries == old(entries) && r == Err(error)
    {
      hide JsonBytes, MetadataBytes, CreateEnvelope;
      if !Named(metadata) {
        return Err(InvalidMetadata);
      }
      var envelope := CreateEnvelope(JsonBytes(credential), o, MetadataBytes(metadata));
      if envelope.None? {
        return Err(CreationFailed);
      }
      entries := entries[IdOf(metadata) := Entry(metadata, envelope.value)];
      r := Ok(());
    }

    method Get(id: Text, secret: Secret, rounding: Rounding) returns (r: Result<Opened, VaultError>)
      ensures r == GetFrom(entries, id, secret, rounding)
    {
      if id !in entries {
        return Err(NotFound);
      }
      var found := OpenEntry(entries[id], secret, rounding);
      r := if found.Some? then Ok(found.value) else Err(CannotOpen);
    }

    method Delete(id: Text)
      modifies this
      ensures entries == old(entries) - {id}
    {
      entries := entries - {id};
    }

    method Migrate(id: Text, current: Secret, next: Options) returns (r: Result<(), VaultError>)
      modifies this
      ensures (entries, r) == MigrateIn(old(entries), id, current, next)
    {
      hide OpenEnvelope, CreateEnvelope, MetadataBytes, EntryMetadata, MetadataMatches;
      if id !in entries {
        return Err(NotFound);
      }
      var entry := entries[id];
      if !MetadataMatches(EntryMetadata(entry.metadata), entry.envelope) {
        return Err(MigrationFailed);
      }
      var plain := OpenEnvelope(entry.envelope, current);
      if plain.None? {
        return Err(MigrationFailed);
      }
      var envelope := CreateEnvelope(plain.value, next, MetadataBytes(EntryMetadata(entry.metadata)));
      if envelope.None? {
        return Err(MigrationFailed);
      }
      entries := entries[id := entry.(envelope := envelope.value)];
      r := Ok(());
    }

    /** `order` is the insertion order of the map. */
    method ExportBackup(order: seq<Text>, o: Options, sequence: int, createdAt: Text, dateOk: bool)
      returns (r: Result<Backup, VaultError>)
      requires forall id | id in order :: id in entries
      ensures r == ExportFrom(entries, order, o, sequence, createdAt, dateOk)
    {
      hide CreateEnvelope, BackupAad, IsVaultEntry;
      if !ValidSequence(sequence) || !dateOk {
        return Err(BackupFailed);
      }
      var list: seq<Entry> := [];
      for i := 0 to |order|
        invariant |list| == i && forall k | 0 <= k < i ::
          IsVaultEntry(entries[order[k]]) && list[k] == Serialised(entries[order[k]])
      {
        assert order[i] in order;
        if !IsVaultEntry(entries[order[i]]) {
          return Err(BackupFailed);
        }
        list := list + [Serialised(entries[order[i]])];
      }
      assert list == Listed(entries, order);
      var envelope := CreateEnvelope(list, o, BackupAad(sequence, createdAt));
      r := if envelope.Some? then Ok(Backup(true, sequence, createdAt, envelope.value)) else Err(BackupFailed);
    }

    method RestoreBackup(b: Backup, secret: Secret, minimum: Option<int>) returns (r: Result<(), VaultError>)
      modifies this
      ensures match RestoreIn(old(entries), b, secret, minimum)
        case Ok(next) => entries == next && r == Ok(())
        case Err(error) => entries == old(entries) && r == Err(error)
    {
      hide OpenBackup, IdOf;
      var list := OpenBackup(b, secret, minimum);
      if list.None? {
        return Err(BackupFailed);
      }
      entries := map[];
      for i := 0 to |list.value|
        invariant entries == FromList(list.value[..i])
      {
        entries := entries[IdOf(list.value[i].metadata) := list.value[i]];
        assert list.value[..i + 1][..i] == list.value[..i];
      }
      assert list.value[..|list.value|] == list.value;
      r := Ok(());
    }
  }
}
