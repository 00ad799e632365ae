/** What the vault keeps: every sequence of operations preserves each credential under its current secret. */
module VaultContent {
  import opened Strings
  import opened Wrappers
  import opened Json
  import opened Records
  import opened Base64Url
  import opened VaultEnvelope
  import opened CredentialVault
  import Utf8

  // ------------------------------------------------------------ single entries

  predicate CanSeal(o: Options) {
    && SecretOf(o).Some? && Rounds(o).Some? && RandomOk(o.random)
    && DeriveWrappingKey(o.strategy, SecretOf(o).value, o.random.salt, Rounds(o).value).Some?
  }

  /** Whether an envelope can be made depends on the options alone. */
  lemma SealsExactly<T>(plain: T, o: Options, aad: seq<int>)
    ensures CreateEnvelope(plain, o, aad).Some? <==> CanSeal(o)
    ensures CanSeal(o) ==>
      && CreateEnvelope(plain, o, aad).value.aad == Some(EncodeBytes(aad))
      && CreateEnvelope(plain, o, aad).value.payload.aad == Some(aad)
      && CreateEnvelope(plain, o, aad).value.version == VERSION && CreateEnvelope(plain, o, aad).value.aesGcm
  {
    hide Utf8.Encode, EncodeBytes, RandomOk, BoundedIterations;
  }

  /** What is put can be got back, with the secret it was sealed under and no other, exactly when the
      metadata is proper. */
  lemma GetExactly(entries: Entries, metadata: seq<Member>, credential: Json, o: Options, secret: Secret,
                   rounding: Rounding)
    requires Typed(metadata) && Clean(credential) && PutIn(entries, metadata, credential, o).Ok?
    ensures GetFrom(PutIn(entries, metadata, credential, o).value, IdOf(metadata), secret, rounding)
         == if Proper(metadata) && Unlocks(o, secret) then Ok(Opened(EntryMetadata(metadata), credential))
           else Err(CannotOpen)
  {
    hide CreateEnvelope, OpenEnvelope, Unlocks, EncodeBytes, Typed, EntryMetadata, FromJsonBytes, Live, JsonBytes,
      Clean, IdOf, Named, Proper;
    MetadataClean(metadata);
    JsonBytesRoundTrip(Object(Live(metadata)), rounding);
    JsonBytesRoundTrip(credential, rounding);
    SealsExactly(JsonBytes(credential), o, MetadataBytes(metadata));
    OpenCreated(JsonBytes(credential), o, MetadataBytes(metadata), secret);
    MatchesExactly(metadata);
  }

  /** A failed migration leaves everything as it was. */
  lemma FailedMigrationKeeps(entries: Entries, id: Text, current: Secret, next: Options)
    ensures MigrateIn(entries, id, current, next).1.Err? ==> MigrateIn(entries, id, current, next).0 == entries
    ensures forall other | other != id ::
      other in entries <==> other in MigrateIn(entries, id, current, next).0
    ensures forall other | other != id && other in entries ::
      MigrateIn(entries, id, current, next).0[other] == entries[other]
  {
    hide Resealed;
  }

  // ------------------------------------------------------------ abstract vault

  /** A credential, the metadata as it was put, and the options that seal it. */
  datatype Item = Item(written: seq<Member>, credential: Json, options: Options)

  type Items = map<Text, Item>

  /** The field that no entry of a backup may have. */
  predicate Backupable(item: Item) {
    !HasKey(item.written, Ascii("credential"))
  }

  /** An entry holds the metadata as it was put or, restored from a backup, without its undefined fields. */
  predicate Holds(metadata: seq<Member>, item: Item) {
    metadata == item.written || (metadata == Live(item.written) && Backupable(item))
  }

  predicate Sealed(e: Entry, item: Item, id: Text) {
    && Typed(item.written) && Named(item.written) && IdOf(item.written) == id
    && Holds(e.metadata, item) && Clean(item.credential)
    && CreateEnvelope(JsonBytes(item.credential), item.options, MetadataBytes(item.written)) == Some(e.envelope)
  }

  predicate Refines(entries: Entries, items: Items) {
    entries.Keys == items.Keys && forall id | id in items :: Sealed(entries[id], items[id], id)
  }

  function AbstractGet(items: Items, id: Text, secret: Secret): Result<Opened, VaultError> {
    if id !in items then Err(NotFound)
    else if Proper(items[id].written) && Unlocks(items[id].options, secret) then
      Ok(Opened(EntryMetadata(items[id].written), items[id].credential))
    else Err(CannotOpen)
  }

  /** What is read of an entry is what is read of the metadata put. */
  lemma HeldMetadata(metadata: seq<Member>, item: Item)
    requires Holds(metadata, item) && Typed(item.written) && Named(item.written)
    ensures EntryMetadata(metadata) == EntryMetadata(item.written) && IdOf(metadata) == IdOf(item.written)
    ensures Typed(metadata) && Named(metadata) && Live(metadata) == Live(item.written)
  {
    hide EntryMetadata, Typed, Named, Live, IdOf;
    LiveMetadata(item.written);
  }

  /** What a sealed entry is like, piece by piece. */
  lemma SealedParts(e: Entry, item: Item, id: Text)
    requires Sealed(e, item, id)
    ensures MetadataMatches(EntryMetadata(e.metadata), e.envelope) <==> Proper(item.written)
    ensures EntryMetadata(e.metadata) == EntryMetadata(item.written)
    ensures Proper(item.written) ==> MetadataBytes(EntryMetadata(item.written)) == MetadataBytes(item.written)
    ensures Utf8.Bytes(MetadataBytes(item.written)) && |MetadataBytes(item.written)| > 0
  {
    hide CreateEnvelope, EncodeBytes, Typed, EntryMetadata, Live, JsonBytes, Clean, IdOf, Named, Holds;
    HeldMetadata(e.metadata, item);
    MetadataClean(item.written);
    SealsExactly(JsonBytes(item.credential), item.options, MetadataBytes(item.written));
    JsonBytesRoundTrip(Object(Live(item.written)), _ => None);
    MatchesExactly(item.written);
  }

  /** Reading a refined vault is reading the abstract one. */
  lemma GetRefines(entries: Entries, items: Items, id: Text, secret: Secret, rounding: Rounding)
    requires Refines(entries, items)
    ensures GetFrom(entries, id, secret, rounding) == AbstractGet(items, id, secret)
  {
    hide CreateEnvelope, OpenEnvelope, Unlocks, EntryMetadata, FromJsonBytes, JsonBytes, Typed, Named, IdOf,
      MetadataMatches, MetadataBytes, Clean, Proper, Holds;
    if id in entries {
      var e, item := entries[id], items[id];
      assert Sealed(e, item, id);
      SealedParts(e, item, id);
      OpenCreated(JsonBytes(item.credential), item.options, MetadataBytes(item.written), secret);
      JsonBytesRoundTrip(item.credential, rounding);
    }
  }

  // -------------------------------------------------------------------- steps

  /** Metadata has fields of the declared types, each once, whatever their order; the credential is plain JSON. */
  predicate GoodPut(metadata: seq<Member>, credential: Json) {
    Typed(metadata) && Clean(credential)
  }

  function AbstractPut(items: Items, metadata: seq<Member>, credential: Json, o: Options): Items {
    if Named(metadata) && CanSeal(o) then items[IdOf(metadata) := Item(metadata, credential, o)] else items
  }

  function AfterPut(entries: Entries, metadata: seq<Member>, credential: Json, o: Options): Entries {
    match PutIn(entries, metadata, credential, o) case Ok(next) => next case Err(_) => entries
  }

  lemma PutRefines(entries: Entries, items: Items, metadata: seq<Member>, credential: Json, o: Options)
    requires Refines(entries, items) && GoodPut(metadata, credential)
    ensures Refines(AfterPut(entries, metadata, credential, o), AbstractPut(items, metadata, credential, o))
  {
    hide CreateEnvelope, MetadataBytes, JsonBytes, IdOf, Clean, CanSeal, Typed, Named, Live, Backupable;
    SealsExactly(JsonBytes(credential), o, MetadataBytes(metadata));
    var next, after := AfterPut(entries, metadata, credential, o), AbstractPut(items, metadata, credential, o);
    forall id | id in after ensures Sealed(next[id], after[id], id) {
      assert id in items ==> Sealed(entries[id], items[id], id);
    }
  }

  predicate CanMigrate(items: Items, id: Text, current: Secret, next: Options) {
    id in items && Proper(items[id].written) && Unlocks(items[id].options, current) && CanSeal(next)
  }

  function AbstractMigrate(items: Items, id: Text, current: Secret, next: Options): Items {
    if CanMigrate(items, id, current, next) then items[id := items[id].(options := next)] else items
  }

  /** Migration changes the secret and nothing else; without the current secret it changes nothing. */
  lemma MigrateRefines(entries: Entries, items: Items, id: Text, current: Secret, next: Options)
    requires Refines(entries, items)
    ensures Refines(MigrateIn(entries, id, current, next).0, AbstractMigrate(items, id, current, next))
    ensures MigrateIn(entries, id, current, next).1.Ok? <==> CanMigrate(items, id, current, next)
  {
    hide CreateEnvelope, OpenEnvelope, Unlocks, EntryMetadata, JsonBytes, Proper, IdOf, MetadataMatches, MetadataBytes,
      Clean, CanSeal, Typed, Named, Live, HasKey;
    if id in entries {
      var e, item := entries[id], items[id];
      assert Sealed(e, item, id);
      SealedParts(e, item, id);
      OpenCreated(JsonBytes(item.credential), item.options, MetadataBytes(item.written), current);
      SealsExactly(JsonBytes(item.credential), next, MetadataBytes(item.written));
      var after, spec := MigrateIn(entries, id, current, next).0, AbstractMigrate(items, id, current, next);
      forall k | k in spec ensures Sealed(after[k], spec[k], k) {
        assert Sealed(entries[k], items[k], k);
      }
    }
  }

  // ------------------------------------------------------------------- backup

  predicate Orders(order: seq<Text>, entries: Entries) {
    (forall id | id in order :: id in entries) && (forall id | id in entries :: id in order)
  }

  /** Rebuilding the map from any listing of its entries gives each id its entry again. */
  lemma {:induction false} FromListed(entries: Entries, order: seq<Text>)
    requires forall id | id in order :: id in entries && IdOf(Live(entries[id].metadata)) == id
    ensures FromList(Listed(entries, order)).Keys == (set id | id in order)
    ensures forall id | id in order :: FromList(Listed(entries, order))[id] == Serialised(entries[id])
    decreases |order|
  {
    hide IdOf, Live, FromList, Listed;
    var n := |order|;
    if n == 0 {
      FromNothing(entries);
    } else {
      var front := order[..n - 1];
      assert forall id | id in front :: id in order;
      assert order[n - 1] in order;
      FromListed(entries, front);
      FromListStep(entries, order);
      assert forall id :: id in order <==> id in front || id == order[n - 1];
    }
  }

  lemma FromNothing(entries: Entries)
    ensures FromList(Listed(entries, [])) == map[]
  {}

  lemma FromListStep(entries: Entries, order: seq<Text>)
    requires |order| > 0 && forall id | id in order :: id in entries && IdOf(Live(entries[id].metadata)) == id
    ensures
      var n := |order|;
      assert order[n - 1] in order && forall id | id in order[..n - 1] :: id in order;
      FromList(Listed(entries, order))
        == FromList(Listed(entries, order[..n - 1]))[order[n - 1] := Serialised(entries[order[n - 1]])]
  {
    hide IdOf, Live;
    var n := |order|;
    assert order[n - 1] in order && forall id | id in order[..n - 1] :: id in order;
    assert Listed(entries, order)[..n - 1] == Listed(entries, order[..n - 1]);
  }

  lemma BackupNames()
    ensures FieldNames(BACKUP_NAMES)
  {}

  lemma HeaderClean(sequence: int, createdAt: Text)
    requires IsSafeInteger(sequence) && Units(createdAt)
    ensures Clean(BackupHeader(sequence, createdAt))
  {
    BackupNames();
    var values := [String(Ascii("ssw-credential-vault-backup")), Number(1), Number(sequence), String(createdAt)];
    RecordKeys(BACKUP_NAMES, values);
    forall m | m in BackupHeader(sequence, createdAt).members ensures Units(m.key) && Clean(m.value) {
      var i :| 0 <= i < 4 && m == Member(Ascii(BACKUP_NAMES[i]), values[i]);
    }
  }

  /** The header fixes the sequence number and the time. */
  lemma HeaderInjective(n: int, s: Text, m: int, t: Text)
    requires IsSafeInteger(n) && IsSafeInteger(m) && Units(s) && Units(t)
    ensures EncodeBytes(BackupAad(n, s)) == EncodeBytes(BackupAad(m, t)) <==> n == m && s == t
    ensures Utf8.Bytes(BackupAad(n, s)) && |BackupAad(n, s)| > 0
  {
    hide EncodeBytes, JsonBytes, Clean;
    HeaderClean(n, s);
    HeaderClean(m, t);
    JsonBytesInjective(BackupHeader(n, s), BackupHeader(m, t));
    JsonBytesRoundTrip(BackupHeader(n, s), _ => None);
    var a, b := BackupHeader(n, s), BackupHeader(m, t);
    if a == b {
      assert a.members[2].value == Number(n) && b.members[2].value == Number(m);
      assert a.members[3].value == String(s) && b.members[3].value == String(t);
    }
  }

  /** A backup whose outer sequence number or time was changed does not open, whatever else was
      changed around the sealed payload. */
  lemma BackupHeaderIsBound(entries: Entries, order: seq<Text>, o: Options, sequence: int, createdAt: Text,
                            forged: Backup, secret: Secret, minimum: Option<int>)
    requires (forall id | id in order :: id in entries) && Units(createdAt) && Units(forged.createdAt)
    requires ExportFrom(entries, order, o, sequence, createdAt, true).Ok?
    requires forged.envelope.payload == ExportFrom(entries, order, o, sequence, createdAt, true).value.envelope.payload
    requires OpenBackup(forged, secret, minimum).Some?
    ensures forged.sequence == sequence && forged.createdAt == createdAt
    ensures OpenBackup(forged, secret, minimum).value == Listed(entries, order)
  {
    hide CreateEnvelope, OpenEnvelope, EncodeBytes, BackupAad, IsVaultEntry, AssociatedData;
    SealsExactly(Listed(entries, order), o, BackupAad(sequence, createdAt));
    PayloadIsBound(forged.envelope, secret);
    HeaderInjective(forged.sequence, forged.createdAt, sequence, createdAt);
    HeaderInjective(sequence, createdAt, forged.sequence, forged.createdAt);
    AssociatedDataOf(forged.envelope, BackupAad(forged.sequence, forged.createdAt));
    PlainOfCreated(Listed(entries, order), o, BackupAad(sequence, createdAt));
  }

  lemma PlainOfCreated<T>(plain: T, o: Options, aad: seq<int>)
    ensures CreateEnvelope(plain, o, aad).Some? ==> CreateEnvelope(plain, o, aad).value.payload.plain == plain
  {}

  /** A sealed entry may be backed up unless its metadata has the forbidden field, and stays sealed as it is
      serialised. */
  lemma SealedIsVaultEntry(e: Entry, item: Item, id: Text)
    requires Sealed(e, item, id)
    ensures IsVaultEntry(e) <==> Backupable(item)
    ensures Backupable(item) ==> IsVaultEntry(Serialised(e)) && Sealed(Serialised(e), item, id)
    ensures IdOf(Live(e.metadata)) == id
  {
    hide CreateEnvelope, EntryMetadata, JsonBytes, MetadataBytes, Clean, Get, Typed, Named, Truthy, Live, IdOf;
    SealsExactly(JsonBytes(item.credential), item.options, MetadataBytes(item.written));
    HeldMetadata(e.metadata, item);
    LiveMetadata(item.written);
    RequiredStrings(e.metadata);
    RequiredStrings(Live(e.metadata));
  }

  lemma RequiredStrings(metadata: seq<Member>)
    requires Typed(metadata) && Named(metadata)
    ensures forall name | name in REQUIRED_NAMES :: Get(metadata, Ascii(name)).String?
  {
    hide Get, REQUIRED_NAMES, DistinctKeys;
    forall name | name in REQUIRED_NAMES ensures Get(metadata, Ascii(name)).String? {
      GetTyped(metadata, Ascii(name));
    }
  }

  /** The entries as their JSON has them, without undefined fields. */
  function AllSerialised(entries: Entries): Entries {
    map id | id in entries :: Serialised(entries[id])
  }

  /** Restoring an export gives the vault back, entry for entry but for undefined fields, in whatever order
      it was listed; and it is a vault of the same credentials. */
  lemma RestoreOfExport(entries: Entries, items: Items, order: seq<Text>, o: Options, sequence: int, createdAt: Text,
                        now: Entries, secret: Secret, minimum: Option<int>)
    requires Refines(entries, items) && Orders(order, entries) && Units(createdAt)
    requires ExportFrom(entries, order, o, sequence, createdAt, true).Ok?
    ensures RestoreIn(now, ExportFrom(entries, order, o, sequence, createdAt, true).value, secret, minimum)
         == if Unlocks(o, secret) && (minimum.Some? ==> minimum.value <= sequence) then Ok(AllSerialised(entries))
           else Err(BackupFailed)
    ensures Refines(AllSerialised(entries), items)
  {
    hide CreateEnvelope, OpenEnvelope, EncodeBytes, BackupAad, IsVaultEntry, Unlocks, IdOf, Sealed, Live, Backupable,
      Serialised;
    SealsExactly(Listed(entries, order), o, BackupAad(sequence, createdAt));
    HeaderInjective(sequence, createdAt, sequence, createdAt);
    OpenCreated(Listed(entries, order), o, BackupAad(sequence, createdAt), secret);
    forall id | id in order
      ensures IsVaultEntry(Serialised(entries[id])) && Sealed(Serialised(entries[id]), items[id], id)
        && IdOf(Live(entries[id].metadata)) == id
    {
      SealedIsVaultEntry(entries[id], items[id], id);
    }
    forall e | e in Listed(entries, order) ensures IsVaultEntry(e) {
      var i :| 0 <= i < |order| && e == Serialised(entries[order[i]]);
      assert order[i] in order;
    }
    FromListed(entries, order);
    assert FromList(Listed(entries, order)) == AllSerialised(entries);
  }

  // --------------------------------------------------------------------- runs

  datatype Event =
    | PutEvent(metadata: seq<Member>, credential: Json, options: Options)
    | DeleteEvent(id: Text)
    | MigrateEvent(id: Text, current: Secret, options: Options)
    | ExportEvent(order: seq<Text>, options: Options, sequence: int, createdAt: Text)
    | RestoreEvent(backup: nat, secret: Secret, minimum: Option<int>)

  /** The vault and every backup made of it. */
  datatype Vault = Vault(entries: Entries, backups: seq<Backup>)

  /** What is meant: the credentials, and what each backup holds. */
  datatype Snapshot = Snapshot(items: Items, options: Options, sequence: int)

  datatype Meaning = Meaning(items: Items, snapshots: seq<Snapshot>)

  function Step(v: Vault, e: Event): Vault {
    match e
    case PutEvent(metadata, credential, o) => v.(entries := AfterPut(v.entries, metadata, credential, o))
    case DeleteEvent(id) => v.(entries := v.entries - {id})
    case MigrateEvent(id, current, o) => v.(entries := MigrateIn(v.entries, id, current, o).0)
    case ExportEvent(order, o, sequence, createdAt) =>
      if !Orders(order, v.entries) then v
      else
        (match ExportFrom(v.entries, order, o, sequence, createdAt, true)
         case Ok(backup) => v.(backups := v.backups + [backup])
         case Err(_) => v)
    case RestoreEvent(k, secret, minimum) =>
      if k >= |v.backups| then v
      else
        (match RestoreIn(v.entries, v.backups[k], secret, minimum)
         case Ok(entries) => v.(entries := entries)
         case Err(_) => v)
  }

  function AbstractStep(m: Meaning, e: Event): Meaning {
    match e
    case PutEvent(metadata, credential, o) => m.(items := AbstractPut(m.items, metadata, credential, o))
    case DeleteEvent(id) => m.(items := m.items - {id})
    case MigrateEvent(id, current, o) => m.(items := AbstractMigrate(m.items, id, current, o))
    case ExportEvent(order, o, sequence, _) =>
      if (forall id | id in order :: id in m.items)
         && (forall id | id in m.items :: id in order && Backupable(m.items[id]))
         && ValidSequence(sequence) && CanSeal(o)
      then m.(snapshots := m.snapshots + [Snapshot(m.items, o, sequence)]) else m
    case RestoreEvent(k, secret, minimum) =>
      if k < |m.snapshots| && Unlocks(m.snapshots[k].options, secret)
         && (minimum.Some? ==> minimum.value <= m.snapshots[k].sequence)
      then m.(items := m.snapshots[k].items) else m
  }

  /** The arguments have their declared types. */
  predicate Good(e: Event) {
    && (e.PutEvent? ==> GoodPut(e.metadata, e.credential))
    && (e.ExportEvent? ==> Units(e.createdAt))
  }

  /** A backup is an export of a vault that refines the snapshot. */
  ghost predicate Backs(b: Backup, s: Snapshot) {
    exists entries: Entries, order, createdAt :: ExportOf(entries, order, createdAt, b, s)
  }

  predicate ExportOf(entries: Entries, order: seq<Text>, createdAt: Text, b: Backup, s: Snapshot) {
    && Refines(entries, s.items) && Orders(order, entries) && Units(createdAt)
    && ExportFrom(entries, order, s.options, s.sequence, createdAt, true) == Ok(b)
  }

  ghost predicate Represents(v: Vault, m: Meaning) {
    && Refines(v.entries, m.items)
    && |v.backups| == |m.snapshots|
    && forall k | 0 <= k < |v.backups| :: Backs(v.backups[k], m.snapshots[k])
  }

  lemma ExportRepresents(v: Vault, m: Meaning, e: Event)
    requires Represents(v, m) && e.ExportEvent? && Good(e)
    ensures Represents(Step(v, e), AbstractStep(m, e))
  {
    hide CreateEnvelope, BackupAad, IsVaultEntry, Sealed, CanSeal, Backs, Backupable;
    var after, spec := Step(v, e), AbstractStep(m, e);
    if Orders(e.order, v.entries) {
      SealsExactly(Listed(v.entries, e.order), e.options, BackupAad(e.sequence, e.createdAt));
      forall id | id in e.order ensures IsVaultEntry(v.entries[id]) <==> Backupable(m.items[id]) {
        SealedIsVaultEntry(v.entries[id], m.items[id], id);
      }
      var exported := ExportFrom(v.entries, e.order, e.options, e.sequence, e.createdAt, true);
      if exported.Ok? {
        BacksExport(v.entries, e.order, e.createdAt, exported.value, Snapshot(m.items, e.options, e.sequence));
      }
    }
  }

  lemma BacksExport(entries: Entries, order: seq<Text>, createdAt: Text, b: Backup, s: Snapshot)
    requires ExportOf(entries, order, createdAt, b, s)
    ensures Backs(b, s)
  {}

  lemma RestoreRepresents(v: Vault, m: Meaning, e: Event)
    requires Represents(v, m) && e.RestoreEvent?
    ensures Represents(Step(v, e), AbstractStep(m, e))
  {
    hide ExportFrom, RestoreIn, Sealed, Unlocks;
    if e.backup < |v.backups| {
      var b, s := v.backups[e.backup], m.snapshots[e.backup];
      assert Backs(b, s);
      var entries: Entries, order, createdAt :| ExportOf(entries, order, createdAt, b, s);
      RestoreOfExport(entries, s.items, order, s.options, s.sequence, createdAt, v.entries, e.secret, e.minimum);
    }
  }

  lemma StepRepresents(v: Vault, m: Meaning, e: Event)
    requires Represents(v, m) && Good(e)
    ensures Represents(Step(v, e), AbstractStep(m, e))
  {
    hide Backs, Sealed, MigrateIn, AbstractMigrate, AfterPut, AbstractPut, ExportFrom, RestoreIn, GoodPut;
    match e
    case PutEvent(metadata, credential, o) => PutRefines(v.entries, m.items, metadata, credential, o);
    case DeleteEvent(id) =>
    case MigrateEvent(id, current, o) => MigrateRefines(v.entries, m.items, id, current, o);
    case ExportEvent(_, _, _, _) => ExportRepresents(v, m, e);
    case RestoreEvent(_, _, _) => RestoreRepresents(v, m, e);
  }

  function Run(v: Vault, events: seq<Event>): Vault
    decreases |events|
  {
    if |events| == 0 then v else Run(Step(v, events[0]), events[1..])
  }

  function AbstractRun(m: Meaning, events: seq<Event>): Meaning
    decreases |events|
  {
    if |events| == 0 then m else AbstractRun(AbstractStep(m, events[0]), events[1..])
  }

  lemma {:induction false} RunRepresents(v: Vault, m: Meaning, events: seq<Event>)
    requires Represents(v, m) && forall e | e in events :: Good(e)
    ensures Represents(Run(v, events), AbstractRun(m, events))
    decreases |events|
  {
    hide Step, AbstractStep, Represents, Good;
    if |events| > 0 {
      assert events[0] in events;
      StepRepresents(v, m, events[0]);
      RunRepresents(Step(v, events[0]), AbstractStep(m, events[0]), events[1..]);
    }
  }

  /** After any sequence of puts, deletions, migrations, exports and restores, `get` gives the
      credential that was put, under the secret now in force and under no other, exactly when it was put with
      proper metadata. */
  lemma VaultKeepsCredentials(events: seq<Event>, id: Text, secret: Secret, rounding: Rounding)
    requires forall e | e in events :: Good(e)
    ensures GetFrom(Run(Vault(map[], []), events).entries, id, secret, rounding)
         == AbstractGet(AbstractRun(Meaning(map[], []), events).items, id, secret)
  {
    hide Run, AbstractRun, GetFrom, AbstractGet, Good;
    RunRepresents(Vault(map[], []), Meaning(map[], []), events);
    GetRefines(Run(Vault(map[], []), events).entries, AbstractRun(Meaning(map[], []), events).items, id, secret,
      rounding);
  }
}
