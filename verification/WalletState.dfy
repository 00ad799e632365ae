/**
 The state a migration bundle carries, as the JSON object it is: what `validateState` demands of it, how
 `serializeCanonical` writes it, and that reading it back loses nothing but the order of keys.
 */
module WalletState {
  import opened Strings
  import opened Addresses
  import opened Wrappers
  import opened Json
  import opened CanonicalForm
  import opened Records
  import opened VaultEnvelope
  import Utf8

  // ------------------------------------------------------------ serialisation

  const MAX_DEPTH := 8
  const MAX_ITEMS := 32

  /** What `serializeCanonical` accepts: bounded nesting and arrays, safe integers, nothing undefined. */
  predicate Serialisable(v: Json, depth: int)
    decreases v
  {
    depth <= MAX_DEPTH &&
    match v
    case Undefined => false
    case Number(n) => IsSafeInteger(n)
    case Array(items) => |items| <= MAX_ITEMS && forall item | item in items :: Serialisable(item, depth + 1)
    case Object(members) => forall m | m in members :: Serialisable(m.value, depth + 1)
    case _ => true
  }

  /** Within these bounds it writes what `canonical` writes. */
  function SerialBytes(v: Json): Option<seq<int>> {
    if !Serialisable(v, 0) then None
    else
      var text :- Canonical(v);
      Some(Utf8.Encode(text))
  }

  lemma {:induction false} SerialisablePrintable(v: Json, depth: int)
    requires Serialisable(v, depth)
    ensures Printable(v)
    decreases v
  {
    match v
    case Array(items) =>
      forall item | item in items ensures Printable(item) {
        SerialisablePrintable(item, depth + 1);
      }
    case Object(members) =>
      forall m | m in members ensures Printable(m.value) {
        SerialisablePrintable(m.value, depth + 1);
      }
    case _ =>
  }

  /** What was written is read back, keys sorted. */
  lemma SerialRoundTrip(v: Json, rounding: Rounding)
    requires WellFormed(v) && Serialisable(v, 0)
    ensures SerialBytes(v).Some?
    ensures FromJsonBytes(SerialBytes(v).value, rounding) == Some(Norm(v)) && SameValue(v, Norm(v))
    ensures Utf8.Bytes(SerialBytes(v).value) && |SerialBytes(v).value| > 0
  {
    hide FromJsonBytes, WellFormed, SameValue, Norm, Serialisable, Print, Canonical, Utf8.Encode, Printable, Clean;
    SerialisablePrintable(v, 0);
    CanonicalIsPrint(v);
    NormIsClean(v);
    JsonBytesRoundTrip(Norm(v), rounding);
    NormIdempotent(v);
    SameNormSameValue(v, Norm(v));
  }

  // -------------------------------------------------------------- valid states

  /** Whether a key matches the pattern for secret material. */
  type SecretPattern = Text -> bool

  /** `assertNoSecretMaterial` */
  predicate NoSecrets(v: Json, depth: int, secret: SecretPattern)
    decreases v
  {
    depth <= MAX_DEPTH &&
    match v
    case Array(items) => forall item | item in items :: NoSecrets(item, depth + 1, secret)
    case Object(members) => forall m | m in members :: !secret(m.key) && NoSecrets(m.value, depth + 1, secret)
    case _ => true
  }

  /** No key beyond these. */
  predicate OnlyKeys(v: Json, names: seq<string>) {
    v.Object? && forall m | m in v.members :: m.key in Keys(names)
  }

  predicate IsText(v: Json, limit: int) {
    v.String? && 1 <= |v.s| <= limit
  }

  predicate MayBeText(v: Json, limit: int) {
    v == Undefined || IsText(v, limit)
  }

  predicate IsOneOf(v: Json, words: seq<string>) {
    v.String? && exists word | word in words :: v.s == Ascii(word)
  }

  predicate IsAddress(v: Json) {
    v.String? && ValidAddress(v.s)
  }

  /** `^0x(?:[0-9a-fA-F]{2})*$` */
  predicate IsHexText(v: Json) {
    && v.String? && 2 <= |v.s| <= 131074 && |v.s| % 2 == 0 && v.s[0] == 0x30 && v.s[1] == 0x78
    && forall i | 2 <= i < |v.s| :: IsHex(v.s[i])
  }

  /** `^[A-Za-z0-9._:-]+$`, at most 128 characters */
  predicate IsBundleId(t: Text) {
    1 <= |t| <= 128
    && forall i | 0 <= i < |t| ::
      IsDigit(t[i]) || 0x41 <= t[i] <= 0x5a || 0x61 <= t[i] <= 0x7a || t[i] in {0x2e, 0x5f, 0x3a, 0x2d}
  }

  predicate ValidSigner(v: Json) {
    && OnlyKeys(v, ["id", "kind", "publicKey"])
    && Field(v, "id").String? && IsBundleId(Field(v, "id").s)
    && IsOneOf(Field(v, "kind"), ["passkey", "recovery", "operational"])
    && (Field(v, "publicKey") == Undefined || IsHexText(Field(v, "publicKey")))
  }

  predicate ValidModule(v: Json) {
    && OnlyKeys(v, ["address", "type", "version", "codeHash"])
    && IsAddress(Field(v, "address")) && IsText(Field(v, "type"), 64) && IsText(Field(v, "version"), 128)
    && IsHexText(Field(v, "codeHash"))
  }

  predicate ValidControl(v: Json) {
    && OnlyKeys(v, ["recoveryAvailable", "signers", "modules"])
    && Field(v, "recoveryAvailable").Bool? && Field(v, "signers").Array? && Field(v, "modules").Array?
    && (forall item | item in Field(v, "signers").items :: ValidSigner(item))
    && (forall item | item in Field(v, "modules").items :: ValidModule(item))
  }

  /** The address of a native asset is not looked at. */
  predicate ValidAsset(v: Json) {
    && OnlyKeys(v, ["kind", "address", "tokenId", "balance"])
    && IsOneOf(Field(v, "kind"), ["native", "erc20", "erc721", "erc1155"])
    && (Field(v, "kind").s != Ascii("native") ==> IsAddress(Field(v, "address")))
    && MayBeText(Field(v, "tokenId"), 128) && MayBeText(Field(v, "balance"), 80)
  }

  /** Anything without own keys passes for a history, too. */
  predicate ValidHistory(v: Json) {
    match v
    case Null => false
    case String(s) => |s| == 0
    case Array(items) => |items| == 0
    case Object(_) =>
      && OnlyKeys(v, ["cursor", "digest"]) && MayBeText(Field(v, "cursor"), 256)
      && (Field(v, "digest") == Undefined || IsHexText(Field(v, "digest")))
    case _ => true
  }

  predicate ValidWallet(v: Json) {
    && OnlyKeys(v, ["address", "chainId", "did", "locator"])
    && Field(v, "chainId").Number? && IsSafeInteger(Field(v, "chainId").n) && Field(v, "chainId").n >= 1
    && IsAddress(Field(v, "address")) && MayBeText(Field(v, "did"), 256) && MayBeText(Field(v, "locator"), 256)
  }

  /** `validateState`: true where it does not throw. */
  predicate ValidState(v: Json, secret: SecretPattern) {
    && NoSecrets(v, 0, secret)
    && OnlyKeys(v, ["wallet", "control", "assets", "history", "vaultBackup"])
    && ValidWallet(Field(v, "wallet")) && ValidControl(Field(v, "control"))
    && Field(v, "assets").Array? && (forall item | item in Field(v, "assets").items :: ValidAsset(item))
    && ValidHistory(Field(v, "history"))
  }

  function AddressOf(v: Json): Text {
    var address := Field(Field(v, "wallet"), "address");
    if address.String? then address.s else []
  }

  function ChainOf(v: Json): int {
    var chain := Field(Field(v, "wallet"), "chainId");
    if chain.Number? then chain.n else 0
  }

  // ---------------------------------------------- the order of keys does not matter

  lemma FieldOfNorm(v: Json, name: string)
    requires WellFormed(v)
    ensures Field(Norm(v), name) == Norm(Field(v, name)) && WellFormed(Field(v, name))
    ensures !Field(v, name).Array? && !Field(v, name).Object? ==> Field(Norm(v), name) == Field(v, name)
  {
    if v.Object? {
      GetOfNorm(v, Ascii(name));
      NormIsObject(v);
      GetWellFormed(v.members, Ascii(name));
    }
  }

  lemma OnlyKeysOfNorm(v: Json, names: seq<string>)
    requires WellFormed(v) && OnlyKeys(v, names)
    ensures OnlyKeys(Norm(v), names)
  {
    hide Keys;
    NormIsObject(v);
    forall r | r in NormObject(v) ensures r.key in Keys(names) {
      var m := NormObjectFrom(v, r);
    }
  }

  lemma ItemOfNorm(v: Json, item: Json) returns (was: Json)
    requires v.Array? && WellFormed(v) && Norm(v).Array? && item in Norm(v).items
    ensures was in v.items && item == Norm(was) && WellFormed(was)
  {
    var i :| 0 <= i < |v.items| && item == Norm(v.items[i]);
    was := v.items[i];
  }

  lemma NormArray(v: Json)
    requires v.Array?
    ensures Norm(v).Array? && |Norm(v).items| == |v.items|
  {}

  lemma SignerOfNorm(v: Json)
    requires WellFormed(v) && ValidSigner(v)
    ensures ValidSigner(Norm(v))
  {
    hide Norm, WellFormed, Field, OnlyKeys, IsBundleId, IsHexText, IsOneOf;
    OnlyKeysOfNorm(v, ["id", "kind", "publicKey"]);
    FieldOfNorm(v, "id");
    FieldOfNorm(v, "kind");
    FieldOfNorm(v, "publicKey");
    Texts();
  }

  lemma ModuleOfNorm(v: Json)
    requires WellFormed(v) && ValidModule(v)
    ensures ValidModule(Norm(v))
  {
    hide Norm, WellFormed, Field, OnlyKeys, IsAddress, IsHexText, IsText;
    OnlyKeysOfNorm(v, ["address", "type", "version", "codeHash"]);
    FieldOfNorm(v, "address");
    FieldOfNorm(v, "type");
    FieldOfNorm(v, "version");
    FieldOfNorm(v, "codeHash");
    Texts();
  }

  /** These predicates hold of scalars only. */
  lemma Texts()
    ensures forall v | IsHexText(v) || IsAddress(v) :: v.String?
    ensures forall v, words | IsOneOf(v, words) :: v.String?
    ensures forall v, limit | IsText(v, limit) :: v.String?
    ensures forall v, limit | MayBeText(v, limit) :: v.String? || v == Undefined
  {}

  lemma ControlOfNorm(v: Json)
    requires WellFormed(v) && ValidControl(v)
    ensures ValidControl(Norm(v))
  {
    hide Norm, WellFormed, Field, OnlyKeys, ValidSigner, ValidModule;
    OnlyKeysOfNorm(v, ["recoveryAvailable", "signers", "modules"]);
    FieldOfNorm(v, "recoveryAvailable");
    FieldOfNorm(v, "signers");
    FieldOfNorm(v, "modules");
    var (signers, modules) := (Field(v, "signers"), Field(v, "modules"));
    NormArray(signers);
    NormArray(modules);
    forall item | item in Norm(signers).items ensures ValidSigner(item) {
      var was := ItemOfNorm(signers, item);
      SignerOfNorm(was);
    }
    forall item | item in Norm(modules).items ensures ValidModule(item) {
      var was := ItemOfNorm(modules, item);
      ModuleOfNorm(was);
    }
  }

  lemma AssetOfNorm(v: Json)
    requires WellFormed(v) && ValidAsset(v)
    ensures ValidAsset(Norm(v))
  {
    hide Norm, WellFormed, Field, OnlyKeys, IsAddress, MayBeText, IsOneOf;
    OnlyKeysOfNorm(v, ["kind", "address", "tokenId", "balance"]);
    FieldOfNorm(v, "kind");
    FieldOfNorm(v, "address");
    FieldOfNorm(v, "tokenId");
    FieldOfNorm(v, "balance");
    Texts();
  }

  lemma HistoryOfNorm(v: Json)
    requires WellFormed(v) && ValidHistory(v)
    ensures ValidHistory(Norm(v))
  {
    hide WellFormed, Field, OnlyKeys, IsHexText, MayBeText;
    if v.Object? {
      OnlyKeysOfNorm(v, ["cursor", "digest"]);
      FieldOfNorm(v, "cursor");
      FieldOfNorm(v, "digest");
      Texts();
      NormIsObject(v);
    }
  }

  lemma WalletOfNorm(v: Json)
    requires WellFormed(v) && ValidWallet(v)
    ensures ValidWallet(Norm(v))
    ensures Field(Norm(v), "address") == Field(v, "address") && Field(Norm(v), "chainId") == Field(v, "chainId")
  {
    hide Norm, WellFormed, Field, OnlyKeys, IsAddress, MayBeText;
    OnlyKeysOfNorm(v, ["address", "chainId", "did", "locator"]);
    FieldOfNorm(v, "address");
    FieldOfNorm(v, "chainId");
    FieldOfNorm(v, "did");
    FieldOfNorm(v, "locator");
    Texts();
  }

  lemma {:induction false} SecretsOfNorm(v: Json, depth: int, secret: SecretPattern)
    requires WellFormed(v) && NoSecrets(v, depth, secret)
    ensures NoSecrets(Norm(v), depth, secret)
    decreases v
  {
    match v
    case Array(items) =>
      forall item | item in NormItems(items) ensures NoSecrets(item, depth + 1, secret) {
        var i :| 0 <= i < |items| && item == Norm(items[i]);
        assert items[i] in items;
        SecretsOfNorm(items[i], depth + 1, secret);
      }
    case Object(members) =>
      NormIsObject(v);
      forall r | r in NormObject(v) ensures !secret(r.key) && NoSecrets(r.value, depth + 1, secret) {
        var m := NormObjectFrom(v, r);
        SecretsOfNorm(m.value, depth + 1, secret);
      }
    case _ =>
  }

  /** A valid state is still valid once its keys are sorted, and binds the same account. */
  lemma StateOfNorm(v: Json, secret: SecretPattern)
    requires WellFormed(v) && ValidState(v, secret)
    ensures ValidState(Norm(v), secret) && AddressOf(Norm(v)) == AddressOf(v) && ChainOf(Norm(v)) == ChainOf(v)
  {
    hide Norm, WellFormed, Field, OnlyKeys, NoSecrets, ValidWallet, ValidControl, ValidAsset, ValidHistory;
    SecretsOfNorm(v, 0, secret);
    OnlyKeysOfNorm(v, ["wallet", "control", "assets", "history", "vaultBackup"]);
    FieldOfNorm(v, "wallet");
    FieldOfNorm(v, "control");
    FieldOfNorm(v, "assets");
    FieldOfNorm(v, "history");
    WalletOfNorm(Field(v, "wallet"));
    ControlOfNorm(Field(v, "control"));
    HistoryOfNorm(Field(v, "history"));
    var assets := Field(v, "assets");
    NormArray(assets);
    forall item | item in Norm(assets).items ensures ValidAsset(item) {
      var was := ItemOfNorm(assets, item);
      AssetOfNorm(was);
    }
  }
}
