/** When vault envelopes, entries and backups are made, open and are refused, told from their parts. */
module VaultChecks {
  import opened Strings
  import opened Wrappers
  import opened Json
  import opened Records
  import opened Base64Url
  import opened VaultEnvelope
  import opened CredentialVault
  import Utf8

  // --------------------------------------------------------------- envelopes

  /** Between a hundred thousand and two millions; a hundred thousand when left out. */
  predicate RoundsAre(given: Option<int>, n: int) {
    n >= 100000 && n <= 2000000 && given in {None, Some(n)} && (given.None? ==> n == 100000)
  }

  lemma RoundsExactly(given: Option<int>, n: int)
    ensures BoundedIterations(given) == Some(n) <==> RoundsAre(given, n)
  {}

  /** The key that a secret of the strategy's kind, at least 32 bytes or 12 characters long, gives. */
  predicate KeyIs(strategy: Strategy, secret: Secret, salt: seq<int>, given: Option<int>, key: AesKey) {
    match (strategy, secret)
    case (Prf, PrfOutput(bytes)) => |bytes| >= 32 && key == Derived(Prf, bytes, salt, 0)
    case (Phrase, Passphrase(text)) =>
      |text| >= 12 && key.Derived? && RoundsAre(given, key.iterations)
      && key == Derived(Phrase, Utf8.Encode(text), salt, key.iterations)
    case _ => false
  }

  lemma KeyExactly(strategy: Strategy, secret: Secret, salt: seq<int>, given: Option<int>, key: AesKey)
    ensures KeyIs(strategy, secret, salt, given, key) <==>
      && (strategy == Phrase ==> BoundedIterations(given).Some?)
      && DeriveWrappingKey(strategy, secret, salt, if strategy == Phrase then BoundedIterations(given).value else 0)
         == Some(key)
  {
    hide Utf8.Encode, RoundsAre;
    if strategy == Phrase {
      if BoundedIterations(given).Some? {
        RoundsExactly(given, BoundedIterations(given).value);
      }
      if key.Derived? {
        RoundsExactly(given, key.iterations);
      }
    }
  }

  predicate DrawnWell(r: Random) {
    |r.salt| == 16 && |r.dek| == 32 && |r.wrappedIv| == 12 && |r.payloadIv| == 12
  }

  /** The secret the options hold for their own strategy. */
  function Own(o: Options): Option<Secret> {
    match (o.strategy, o.prfOutput, o.passphrase)
    case (Prf, Some(bytes), _) => Some(PrfOutput(bytes))
    case (Phrase, _, Some(text)) => Some(Passphrase(text))
    case _ => None
  }

  /** An envelope holds the key it was sealed under, sealed under the secret's key, and the payload, sealed under
      the first and bound to its associated data. */
  ghost predicate Holds<T>(e: Envelope<T>, plain: T, o: Options, aad: seq<int>) {
    var r := o.random;
    && e.version == 1 && e.aesGcm && e.strategy == o.strategy && e.salt == r.salt
    && e.wrappedIv == r.wrappedIv && e.payloadIv == r.payloadIv && e.aad == Some(EncodeBytes(aad))
    && Own(o).Some? && KeyIs(o.strategy, Own(o).value, r.salt, e.iterations, e.wrapped.key)
    && e.wrapped == Sealed(e.wrapped.key, r.wrappedIv, r.dek, None)
    && e.payload == Sealed(Raw(r.dek), r.payloadIv, plain, Some(aad))
    && e.iterations == if o.strategy == Phrase && e.wrapped.key.Derived? then Some(e.wrapped.key.iterations) else None
  }

  /** An envelope is made exactly from a secret and rounds of the strategy's kind and well drawn random bytes. */
  lemma CreatedExactly<T>(plain: T, o: Options, aad: seq<int>)
    ensures CreateEnvelope(plain, o, aad).Some? <==>
      && DrawnWell(o.random) && Own(o).Some?
      && match o.strategy
         case Prf => |o.prfOutput.value| >= 32
         case Phrase =>
           && |o.passphrase.value| >= 12
           && (o.iterations.Some? ==> 100000 <= o.iterations.value && o.iterations.value <= 2000000)
    ensures CreateEnvelope(plain, o, aad).Some? ==> Holds(CreateEnvelope(plain, o, aad).value, plain, o, aad)
  {
    hide Utf8.Encode, EncodeBytes;
  }

  /** The associated data beside an envelope is that of its payload. */
  predicate BoundTo<T>(e: Envelope<T>) {
    if e.aad.None? || e.aad.value == [] then e.payload.aad == None
    else e.payload.aad.Some? && DecodeBytes(e.aad.value) == e.payload.aad
  }

  /** An envelope opens exactly when its version and algorithm are known, the secret gives the key its own key
      is sealed under, that one seals the payload, and nothing around them was changed. */
  lemma OpenedExactly<T>(e: Envelope<T>, secret: Secret, plain: T)
    ensures OpenEnvelope(e, secret) == Some(plain) <==>
      && e.version == 1 && e.aesGcm
      && KeyIs(e.strategy, secret, e.salt, e.iterations, e.wrapped.key)
      && e.wrapped.iv == e.wrappedIv && e.wrapped.aad.None? && |e.wrapped.plain| == 32
      && e.payload.key == Raw(e.wrapped.plain) && e.payload.iv == e.payloadIv && BoundTo(e)
      && plain == e.payload.plain
  {
    hide Utf8.Encode, DecodeBytes, KeyIs, DeriveWrappingKey, BoundedIterations;
    KeyExactly(e.strategy, secret, e.salt, e.iterations, e.wrapped.key);
  }

  // ---------------------------------------------------------------- metadata

  predicate NotEmpty(v: Json) {
    v.String? && v.s != []
  }

  /** The field of metadata. */
  function Of(metadata: seq<Member>, name: string): Member {
    Member(Ascii(name), Get(metadata, Ascii(name)))
  }

  /** The metadata of an entry in order: the three fields there always are, and the two dates that are not empty. */
  lemma EntryMetadataExactly(metadata: seq<Member>)
    requires Typed(metadata)
    ensures EntryMetadata(metadata) ==
      [Of(metadata, "id"), Of(metadata, "credentialType"), Of(metadata, "issuer")]
      + (if NotEmpty(Get(metadata, Ascii("issuedAt"))) then [Of(metadata, "issuedAt")] else [])
      + (if NotEmpty(Get(metadata, Ascii("expiresAt"))) then [Of(metadata, "expiresAt")] else [])
    ensures Named(metadata) <==>
      && NotEmpty(Get(metadata, Ascii("id"))) && NotEmpty(Get(metadata, Ascii("credentialType")))
      && NotEmpty(Get(metadata, Ascii("issuer")))
  {
    hide Ascii, Get;
    forall name: string ensures Truthy(Get(metadata, Ascii(name))) <==> NotEmpty(Get(metadata, Ascii(name))) {
      GetTyped(metadata, Ascii(name));
    }
    assert REQUIRED_NAMES[0] == "id" && REQUIRED_NAMES[1] == "credentialType" && REQUIRED_NAMES[2] == "issuer";
  }

  /** The bytes an entry is bound to are those of its metadata. */
  predicate BoundToMetadata(e: Entry) {
    e.envelope.aad == Some(EncodeBytes(JsonBytes(Object(Live(EntryMetadata(e.metadata))))))
  }

  // ----------------------------------------------------------------- entries

  /** `put` stores the sealed credential under the id exactly when the metadata is complete and the envelope is
      made. */
  lemma PutExactly(entries: Entries, metadata: seq<Member>, credential: Json, o: Options)
    ensures
      var (r, made) := (PutIn(entries, metadata, credential, o),
                        CreateEnvelope(JsonBytes(credential), o, JsonBytes(Object(Live(metadata)))));
      && (r.Ok? <==> Named(metadata) && made.Some?)
      && (r.Ok? ==> r.value == entries[IdOf(metadata) := Entry(metadata, made.value)])
      && (r == Err(InvalidMetadata) <==> !Named(metadata))
  {
    hide Named, JsonBytes, Live, IdOf, CreateEnvelope;
  }

  /** An entry is read exactly when it is bound to its metadata and opens to the bytes of a value. */
  lemma GetExactly(entries: Entries, id: Text, secret: Secret, rounding: Rounding)
    ensures
      var r := GetFrom(entries, id, secret, rounding);
      && (r == Err(NotFound) <==> id !in entries)
      && (r.Ok? <==>
            && id in entries && BoundToMetadata(entries[id]) && OpenEnvelope(entries[id].envelope, secret).Some?
            && FromJsonBytes(OpenEnvelope(entries[id].envelope, secret).value, rounding).Some?)
      && (r.Ok? ==>
            && r.value.metadata == EntryMetadata(entries[id].metadata)
            && Some(r.value.credential) == FromJsonBytes(OpenEnvelope(entries[id].envelope, secret).value, rounding))
  {
    hide JsonBytes, Live, OpenEnvelope, EntryMetadata, FromJsonBytes, EncodeBytes;
  }

  /** An entry is resealed exactly when it is bound to its metadata and opens, and the new envelope is made, from
      the same bytes and metadata; otherwise nothing changes. */
  lemma MigrateExactly(entries: Entries, id: Text, current: Secret, next: Options)
    ensures
      var (after, r) := MigrateIn(entries, id, current, next);
      && (r.Ok? <==>
            && id in entries && BoundToMetadata(entries[id]) && OpenEnvelope(entries[id].envelope, current).Some?
            && Remade(entries[id], current, next).Some?)
      && after == (if r.Ok? then entries[id := Entry(entries[id].metadata, Remade(entries[id], current, next).value)]
                   else entries)
      && (r == Err(NotFound) <==> id !in entries)
  {
    hide JsonBytes, Live, OpenEnvelope, CreateEnvelope, EntryMetadata, EncodeBytes;
  }

  /** The same plain bytes, sealed anew under the metadata. */
  function Remade(e: Entry, current: Secret, next: Options): Option<Envelope<seq<int>>> {
    var plain :- OpenEnvelope(e.envelope, current);
    CreateEnvelope(plain, next, JsonBytes(Object(Live(EntryMetadata(e.metadata)))))
  }

  // ----------------------------------------------------------------- backups

  /** What a backup may hold: no credential, the three fields as texts, and a known envelope. */
  predicate MayBeKept(e: Entry) {
    && (forall m | m in e.metadata :: m.key != Ascii("credential"))
    && Get(e.metadata, Ascii("id")).String? && Get(e.metadata, Ascii("credentialType")).String?
    && Get(e.metadata, Ascii("issuer")).String?
    && e.envelope.version == 1 && e.envelope.aesGcm
  }

  lemma EntryExactly(e: Entry)
    ensures IsVaultEntry(e) <==> MayBeKept(e)
  {
    hide Ascii, Get;
    assert REQUIRED_NAMES[0] == "id" && REQUIRED_NAMES[1] == "credentialType" && REQUIRED_NAMES[2] == "issuer";
  }

  predicate SequenceIsGood(n: int) {
    n > 0 && n <= 9007199254740991
  }

  lemma SequenceExactly(n: int)
    ensures ValidSequence(n) <==> SequenceIsGood(n)
  {}

  /** Kind, version, sequence and time, in this order. */
  lemma HeaderExactly(sequence: int, createdAt: Text)
    ensures BackupHeader(sequence, createdAt) ==
      Object([
        Member(Ascii("kind"), String(Ascii("ssw-credential-") + Ascii("vault-backup"))),
        Member(Ascii("backupVersion"), Number(1)), Member(Ascii("sequence"), Number(sequence)),
        Member(Ascii("createdAt"), String(createdAt))])
  {
    AsciiJoin("ssw-credential-", "vault-backup");
    hide Ascii;
    assert "ssw-credential-vault-backup" == "ssw-credential-" + "vault-backup";
  }

  lemma {:induction false} AsciiJoin(a: string, b: string)
    ensures Ascii(a + b) == Ascii(a) + Ascii(b)
  {
    if |a| > 0 {
      AsciiJoin(a[1..], b);
      assert (a + b)[1..] == a[1..] + b;
    } else {
      assert a + b == b;
    }
  }

  /** A backup is made exactly for a good sequence and date, entries that may all be kept, and an envelope. */
  lemma ExportExactly(entries: Entries, order: seq<Text>, o: Options, sequence: int, createdAt: Text, dateOk: bool)
    requires forall id | id in order :: id in entries
    ensures
      var (r, made) := (ExportFrom(entries, order, o, sequence, createdAt, dateOk),
                        CreateEnvelope(Listed(entries, order), o, JsonBytes(BackupHeader(sequence, createdAt))));
      && (r.Ok? <==>
            && SequenceIsGood(sequence) && dateOk && (forall id | id in order :: MayBeKept(entries[id]))
            && made.Some?)
      && (r.Ok? ==> r.value == Backup(true, sequence, createdAt, made.value))
  {
    hide CreateEnvelope, IsVaultEntry, MayBeKept, JsonBytes, BackupHeader;
    SequenceExactly(sequence);
    forall id | id in order ensures IsVaultEntry(entries[id]) <==> MayBeKept(entries[id]) {
      EntryExactly(entries[id]);
    }
  }

  /** A backup opens exactly when its version is known, its sequence good and not below the least wanted, its
      envelope opens, it is bound to its header, and all its entries may be kept. */
  lemma OpenBackupExactly(b: Backup, secret: Secret, minimum: Option<int>)
    ensures
      var (r, found) := (OpenBackup(b, secret, minimum), OpenEnvelope(b.envelope, secret));
      && (r.Some? <==>
            && b.versionOk && SequenceIsGood(b.sequence) && (minimum.Some? ==> b.sequence >= minimum.value)
            && found.Some? && b.envelope.aad == Some(EncodeBytes(JsonBytes(BackupHeader(b.sequence, b.createdAt))))
            && forall e | e in found.value :: MayBeKept(e))
      && (r.Some? ==> r == found)
  {
    hide OpenEnvelope, IsVaultEntry, MayBeKept, JsonBytes, BackupHeader, EncodeBytes;
    SequenceExactly(b.sequence);
    if OpenEnvelope(b.envelope, secret).Some? {
      forall e | e in OpenEnvelope(b.envelope, secret).value ensures IsVaultEntry(e) <==> MayBeKept(e) {
        EntryExactly(e);
      }
    }
  }

  /** The last entry of an id. */
  predicate LastOf(list: seq<Entry>, id: Text, k: nat) {
    k < |list| && IdOf(list[k].metadata) == id && forall j | k < j < |list| :: IdOf(list[j].metadata) != id
  }

  /** The entries hold the last one of the id, or none when the list has none. */
  ghost predicate HoldLast(entries: Entries, list: seq<Entry>, id: Text) {
    && (id in entries ==> exists k: nat :: LastOf(list, id, k))
    && forall k: nat | LastOf(list, id, k) :: id in entries && entries[id] == list[k]
  }

  lemma {:induction false} ListedLast(list: seq<Entry>, id: Text)
    ensures HoldLast(FromList(list), list, id)
  {
    hide IdOf;
    if |list| > 0 {
      var front := list[..|list| - 1];
      ListedLast(front, id);
      if IdOf(list[|list| - 1].metadata) == id {
        assert LastOf(list, id, |list| - 1);
      } else {
        forall k: nat ensures LastOf(front, id, k) <==> LastOf(list, id, k) {}
      }
    }
  }

  /** A restore replaces everything by the last entry of each id, or changes nothing. */
  lemma RestoreExactly(entries: Entries, b: Backup, secret: Secret, minimum: Option<int>)
    ensures
      var (r, found) := (RestoreIn(entries, b, secret, minimum), OpenBackup(b, secret, minimum));
      (r.Ok? <==> found.Some?) && (r.Ok? ==> forall id :: HoldLast(r.value, found.value, id))
  {
    hide OpenBackup, HoldLast;
    if OpenBackup(b, secret, minimum).Some? {
      forall id ensures HoldLast(RestoreIn(entries, b, secret, minimum).value, OpenBackup(b, secret, minimum).value,
        id) {
        ListedLast(OpenBackup(b, secret, minimum).value, id);
      }
    }
  }
}
