/** The signed, encrypted bundle that carries a wallet to another device. */
module MigrationBundle {
  import opened Strings
  import opened Addresses
  import opened Wrappers
  import opened Json
  import opened CanonicalForm
  import opened Records
  import opened Base64Url
  import opened VaultEnvelope
  import opened WalletState
  import Utf8

  datatype Header = Header(
    bundleId: Text, keyId: Text, issuedAt: Text, expiresAt: Text, walletAddress: Text, chainId: int, strategy: Strategy)

  /** An ideal signature names its key and what was signed. */
  datatype Signature = Signature(keyId: Text, header: Header, envelope: Envelope<seq<int>>)

  datatype Bundle = Bundle(header: Header, envelope: Envelope<seq<int>>, signature: Signature)

  datatype BundleError =
    | InvalidBundle | UnsupportedVersion | BundleExpired | SignatureInvalid | AuthorizationRequired
    | DecryptionFailed | SerializationInvalid

  /** Date.parse: None for NaN. */
  type Dates = Text -> Option<int>

  predicate ValidDate(t: Text, dates: Dates) {
    0 < |t| <= 64 && Units(t) && dates(t).Some?
  }

  const HEADER_NAMES: seq<string> :=
    ["format", "version", "bundleId", "keyId", "issuedAt", "expiresAt", "walletAddress", "chainId", "encryption"]
  const ENCRYPTION_NAMES: seq<string> := ["algorithm", "strategy"]

  function EncryptionValues(strategy: Strategy): (r: seq<Json>)
    ensures |r| == |ENCRYPTION_NAMES|
  {
    [String(Ascii("AES-GCM-256")), String(Ascii(if strategy == Prf then "prf" else "passphrase"))]
  }

  function EncryptionJson(strategy: Strategy): Json {
    Record(ENCRYPTION_NAMES, EncryptionValues(strategy))
  }

  function HeaderValues(h: Header): (r: seq<Json>)
    ensures |r| == |HEADER_NAMES|
  {
    [ String(Ascii("ssw-wallet-migration")), Number(1), String(h.bundleId), String(h.keyId), String(h.issuedAt),
      String(h.expiresAt), String(h.walletAddress), Number(h.chainId), EncryptionJson(h.strategy) ]
  }

  /** The bytes the envelope is sealed under: the serialised header. */
  function HeaderBytes(h: Header): seq<int> {
    match SerialBytes(Record(HEADER_NAMES, HeaderValues(h))) case Some(bs) => bs case None => []
  }

  /** `small`: the whole bundle is within the size limit. */
  datatype ExportInput = ExportInput(
    state: Json, authorized: bool, keyId: Text, options: Options, bundleId: Text, issuedAt: Text, expiresAt: Text,
      small: bool)

  function ExportHeader(i: ExportInput): Header {
    Header(i.bundleId, i.keyId, i.issuedAt, i.expiresAt, AddressOf(i.state), ChainOf(i.state), i.options.strategy)
  }

  /** `exportMigrationBundle` */
  function ExportBundle(i: ExportInput, secret: SecretPattern, dates: Dates): Result<Bundle, BundleError> {
    if !i.authorized then Err(AuthorizationRequired)
    else if !ValidState(i.state, secret) || !ValidDate(i.expiresAt, dates) || !ValidDate(i.issuedAt, dates) then
      Err(InvalidBundle)
    else if dates(i.expiresAt).value <= dates(i.issuedAt).value then Err(BundleExpired)
    else if !IsBundleId(i.bundleId) || !IsBundleId(i.keyId) then Err(InvalidBundle)
    else
      var header := ExportHeader(i);
      match SerialBytes(i.state)
      case None => Err(SerializationInvalid)
      case Some(plain) =>
        match CreateEnvelope(plain, i.options, HeaderBytes(header))
        case None => Err(InvalidBundle)
        case Some(envelope) =>
          if !i.small then Err(InvalidBundle) else Ok(Bundle(header, envelope, Signature(i.keyId, header, envelope)))
  }

  /** `parseBundle` lower-cases the address. */
  function ParseBundle(b: Bundle, dates: Dates): Result<Bundle, BundleError> {
    var h := b.header;
    if b.envelope.version != VERSION || !b.envelope.aesGcm then Err(BundleError.UnsupportedVersion)
    else if b.envelope.strategy != h.strategy then Err(InvalidBundle)
    else if !IsBundleId(h.bundleId) || !IsBundleId(h.keyId) || !ValidDate(h.issuedAt, dates)
      || !ValidDate(h.expiresAt, dates)
            || !ValidAddress(h.walletAddress) || !IsSafeInteger(h.chainId) || h.chainId < 1 then Err(InvalidBundle)
    else Ok(b.(header := h.(walletAddress := Lower(h.walletAddress))))
  }

  /** How a bundle is opened: with whose consent, which secret, and when. */
  datatype Opening = Opening(authorized: bool, secret: Secret, now: int, rounding: Rounding)

  /** `openMigrationBundle` */
  function OpenBundle(input: Bundle, o: Opening, secret: SecretPattern, dates: Dates): Result<Json, BundleError> {
    var b :- ParseBundle(input, dates);
    if dates(b.header.expiresAt).Some? && dates(b.header.expiresAt).value <= o.now then Err(BundleExpired)
    else if b.signature != Signature(b.header.keyId, b.header, b.envelope) then Err(SignatureInvalid)
    else if !o.authorized then Err(AuthorizationRequired)
    else
      match OpenEnvelope(b.envelope, o.secret)
      case None => Err(DecryptionFailed)
      case Some(plain) =>
        if b.envelope.aad != Some(EncodeBytes(HeaderBytes(b.header))) then Err(DecryptionFailed)
        else
          match FromJsonBytes(plain, o.rounding)
          case None => Err(DecryptionFailed)
          case Some(state) =>
            if !ValidState(state, secret) || AddressOf(state) != b.header.walletAddress
               || ChainOf(state) != b.header.chainId then
              Err(InvalidBundle)
            else Ok(state)
  }

  lemma HeaderNames()
    ensures FieldNames(HEADER_NAMES)
  {
    forall name | name in HEADER_NAMES ensures IsName(name) {}
  }

  lemma EncryptionNames()
    ensures FieldNames(ENCRYPTION_NAMES)
  {
    forall name | name in ENCRYPTION_NAMES ensures IsName(name) {}
  }

  /** Text fields of an exported header are code units. */
  predicate PlainHeader(h: Header) {
    Units(h.bundleId) && Units(h.keyId) && Units(h.issuedAt) && Units(h.expiresAt) && Units(h.walletAddress)
    && IsSafeInteger(h.chainId)
  }

  /** A record is serialisable, and well formed, when its fields are. */
  lemma RecordSerialisable(names: seq<string>, values: seq<Json>, depth: int)
    requires |names| == |values| && FieldNames(names) && depth < MAX_DEPTH
    requires forall v | v in values :: WellFormed(v) && Serialisable(v, depth + 1)
    ensures WellFormed(Record(names, values)) && Serialisable(Record(names, values), depth)
  {
    RecordWellFormed(names, values);
    var ms := Record(names, values).members;
    forall m | m in ms ensures Serialisable(m.value, depth + 1) {
      var i :| 0 <= i < |ms| && ms[i] == m;
      assert values[i] in values;
    }
  }

  lemma AsciiUnits(s: string)
    ensures Units(Ascii(s))
  {}

  lemma EncryptionSerialisable(strategy: Strategy)
    ensures WellFormed(EncryptionJson(strategy)) && Serialisable(EncryptionJson(strategy), 1)
  {
    hide Ascii, Units, FieldNames, ENCRYPTION_NAMES;
    EncryptionNames();
    AsciiUnits("AES-GCM-256");
    AsciiUnits("prf");
    AsciiUnits("passphrase");
    RecordSerialisable(ENCRYPTION_NAMES, EncryptionValues(strategy), 1);
  }

  lemma HeaderValuesSerialisable(h: Header)
    requires PlainHeader(h)
    ensures forall v | v in HeaderValues(h) :: WellFormed(v) && Serialisable(v, 1)
  {
    hide Ascii, Units, EncryptionJson;
    EncryptionSerialisable(h.strategy);
    AsciiUnits("ssw-wallet-migration");
  }

  lemma HeaderBytesThere(h: Header)
    requires PlainHeader(h)
    ensures Utf8.Bytes(HeaderBytes(h)) && |HeaderBytes(h)| > 0
  {
    hide Ascii, Units, SerialBytes, EncryptionJson, HEADER_NAMES, FieldNames, HeaderValues, Serialisable, WellFormed,
      PlainHeader;
    HeaderNames();
    HeaderValuesSerialisable(h);
    RecordSerialisable(HEADER_NAMES, HeaderValues(h), 0);
    SerialRoundTrip(Record(HEADER_NAMES, HeaderValues(h)), _ => None);
  }

  lemma ExportedIsPlain(i: ExportInput, secret: SecretPattern, dates: Dates)
    requires ExportBundle(i, secret, dates).Ok?
    ensures PlainHeader(ExportHeader(i)) && ValidAddress(AddressOf(i.state)) && ChainOf(i.state) >= 1
    ensures ValidState(i.state, secret) && Serialisable(i.state, 0)
  {
    hide CreateEnvelope, HeaderBytes, Field, NoSecrets, OnlyKeys, ValidControl, ValidAsset, ValidHistory, MayBeText;
    AddressUnits(AddressOf(i.state));
  }

  lemma AddressUnits(a: Address)
    requires ValidAddress(a)
    ensures Units(a)
  {
    forall k | 0 <= k < 42 ensures 0 <= a[k] < 0x10000 {
      assert k >= 2 ==> IsHex(a[k]);
    }
  }

  /** An exported bundle opens, with its secret, before it expires and with consent, if and only if the
      wallet's address was written in lower case, and then to the state exported, all of it, but for the
      order of its keys. */
  lemma BundleRoundTripExactly(i: ExportInput, secret: SecretPattern, dates: Dates, o: Opening)
    requires WellFormed(i.state) && ExportBundle(i, secret, dates).Ok?
    ensures
      var r := OpenBundle(ExportBundle(i, secret, dates).value, o, secret, dates);
      && (r.Ok? <==> Lower(AddressOf(i.state)) == AddressOf(i.state) && o.authorized && Unlocks(i.options, o.secret)
                     && o.now < dates(i.expiresAt).value)
      && (r.Ok? ==> r.value == Norm(i.state) && SameValue(i.state, r.value))
  {
    hide OpenEnvelope, EncodeBytes, HeaderBytes, Lower, ValidAddress, Unlocks, IsBundleId, Units, ValidState,
      SerialBytes, FromJsonBytes, Norm, SameValue, AddressOf, ChainOf, Serialisable, WellFormed;
    ExportedIsPlain(i, secret, dates);
    HeaderBytesThere(ExportHeader(i));
    SerialRoundTrip(i.state, o.rounding);
    StateOfNorm(i.state, secret);
    OpenCreated(SerialBytes(i.state).value, i.options, HeaderBytes(ExportHeader(i)), o.secret);
  }

  /** In particular a checksummed address fails at the signature. */
  lemma MixedCaseFailsAtSignature(i: ExportInput, secret: SecretPattern, dates: Dates, o: Opening)
    requires ExportBundle(i, secret, dates).Ok? && o.now < dates(i.expiresAt).value
    requires Lower(AddressOf(i.state)) != AddressOf(i.state)
    ensures OpenBundle(ExportBundle(i, secret, dates).value, o, secret, dates) == Err(SignatureInvalid)
  {
    hide OpenEnvelope, EncodeBytes, HeaderBytes, Lower, ValidAddress, IsBundleId, Units, ValidState, SerialBytes,
      FromJsonBytes, AddressOf, ChainOf;
    ExportedIsPlain(i, secret, dates);
  }

  /** The state is validated without a bound on its inventories, but not serialised: more than 32 assets
      cannot be exported. */
  lemma ManyAssetsAreNotPortable(i: ExportInput, secret: SecretPattern, dates: Dates)
    requires ValidState(i.state, secret) && |Field(i.state, "assets").items| > MAX_ITEMS
    ensures ExportBundle(i, secret, dates).Err?
  {
    hide CreateEnvelope, HeaderBytes, ValidWallet, ValidControl, ValidAsset, ValidHistory, NoSecrets;
    GetSerialisable(i.state.members, Ascii("assets"), 1);
  }

  lemma {:induction false} GetSerialisable(members: seq<Member>, key: Text, depth: int)
    ensures Get(members, key) != Undefined && (forall m | m in members :: Serialisable(m.value, depth)) ==>
      Serialisable(Get(members, key), depth)
  {
    if |members| > 0 {
      assert members[0] in members && forall m | m in members[1..] :: m in members;
      GetSerialisable(members[1..], key, depth);
    }
  }
}
