/** Which wallet states are portable, and when bundles are made, open and are refused, told from their parts. */
module BundleChecks {
  import opened Strings
  import opened Addresses
  import opened Wrappers
  import opened Json
  import opened Records
  import opened Base64Url
  import opened VaultEnvelope
  import opened WalletState
  import opened MigrationBundle
  import Patterns

  // ---------------------------------------------------------------- at any depth

  /** The value lies so many levels below the other. */
  ghost predicate Below(v: Json, w: Json, levels: nat)
    decreases levels
  {
    if levels == 0 then w == v
    else
      match v
      case Array(items) => exists item | item in items :: Below(item, w, levels - 1)
      case Object(members) => exists m | m in members :: Below(m.value, w, levels - 1)
      case _ => false
  }

  predicate KeysAreSafe(w: Json, secret: SecretPattern) {
    w.Object? ==> forall m | m in w.members :: !secret(m.key)
  }

  /** No secret key at any level, and no more than so many levels. */
  ghost predicate SafeBelow(v: Json, secret: SecretPattern, depth: int) {
    forall w, n: nat | Below(v, w, n) :: n + depth <= 8 && KeysAreSafe(w, secret)
  }

  lemma BelowItem(v: Json, item: Json, w: Json, n: nat)
    requires v.Array? && item in v.items && Below(item, w, n)
    ensures Below(v, w, n + 1)
  {}

  lemma BelowMember(v: Json, m: Member, w: Json, n: nat)
    requires v.Object? && m in v.members && Below(m.value, w, n)
    ensures Below(v, w, n + 1)
  {}

  lemma {:induction false} SecretsExactly(v: Json, depth: int, secret: SecretPattern)
    ensures NoSecrets(v, depth, secret) <==> SafeBelow(v, secret, depth)
    decreases v
  {
    assert Below(v, v, 0);
    match v
    case Array(items) =>
      forall item | item in items ensures NoSecrets(item, depth + 1, secret) <==> SafeBelow(item, secret, depth + 1) {
        SecretsExactly(item, depth + 1, secret);
      }
      if SafeBelow(v, secret, depth) {
        forall item | item in items ensures SafeBelow(item, secret, depth + 1) {
          forall w, n: nat | Below(item, w, n) ensures Below(v, w, n + 1) {
            BelowItem(v, item, w, n);
          }
        }
      }
      if NoSecrets(v, depth, secret) {
        forall w, n: nat | Below(v, w, n) ensures n + depth <= 8 && KeysAreSafe(w, secret) {
          if n > 0 {
            var item :| item in items && Below(item, w, n - 1);
            assert SafeBelow(item, secret, depth + 1);
          }
        }
      }
    case Object(members) =>
      forall m | m in members ensures NoSecrets(m.value, depth + 1, secret) <==> SafeBelow(m.value, secret, depth + 1) {
        SecretsExactly(m.value, depth + 1, secret);
      }
      if SafeBelow(v, secret, depth) {
        forall m | m in members ensures SafeBelow(m.value, secret, depth + 1) {
          forall w, n: nat | Below(m.value, w, n) ensures Below(v, w, n + 1) {
            BelowMember(v, m, w, n);
          }
        }
      }
      if NoSecrets(v, depth, secret) {
        forall w, n: nat | Below(v, w, n) ensures n + depth <= 8 && KeysAreSafe(w, secret) {
          if n > 0 {
            var m :| m in members && Below(m.value, w, n - 1);
            assert SafeBelow(m.value, secret, depth + 1);
          }
        }
      }
    case _ =>
  }

  /** Nothing undefined, whole numbers that are safe, and at most 32 items. */
  predicate Plain(w: Json) {
    match w
    case Undefined => false
    case Number(n) => -9007199254740991 <= n && n <= 9007199254740991
    case Array(items) => |items| <= 32
    case _ => true
  }

  ghost predicate PlainBelow(v: Json, depth: int) {
    forall w, n: nat | Below(v, w, n) :: n + depth <= 8 && Plain(w)
  }

  lemma {:induction false} SerialisableExactly(v: Json, depth: int)
    ensures Serialisable(v, depth) <==> PlainBelow(v, depth)
    decreases v
  {
    assert Below(v, v, 0);
    match v
    case Array(items) =>
      forall item | item in items ensures Serialisable(item, depth + 1) <==> PlainBelow(item, depth + 1) {
        SerialisableExactly(item, depth + 1);
      }
      if PlainBelow(v, depth) {
        forall item | item in items ensures PlainBelow(item, depth + 1) {
          forall w, n: nat | Below(item, w, n) ensures Below(v, w, n + 1) {
            BelowItem(v, item, w, n);
          }
        }
      }
      if Serialisable(v, depth) {
        forall w, n: nat | Below(v, w, n) ensures n + depth <= 8 && Plain(w) {
          if n > 0 {
            var item :| item in items && Below(item, w, n - 1);
            assert PlainBelow(item, depth + 1);
          }
        }
      }
    case Object(members) =>
      forall m | m in members ensures Serialisable(m.value, depth + 1) <==> PlainBelow(m.value, depth + 1) {
        SerialisableExactly(m.value, depth + 1);
      }
      if PlainBelow(v, depth) {
        forall m | m in members ensures PlainBelow(m.value, depth + 1) {
          forall w, n: nat | Below(m.value, w, n) ensures Below(v, w, n + 1) {
            BelowMember(v, m, w, n);
          }
        }
      }
      if Serialisable(v, depth) {
        forall w, n: nat | Below(v, w, n) ensures n + depth <= 8 && Plain(w) {
          if n > 0 {
            var m :| m in members && Below(m.value, w, n - 1);
            assert PlainBelow(m.value, depth + 1);
          }
        }
      }
    case _ =>
  }

  // ------------------------------------------------------------- valid states

  predicate Text1To(v: Json, limit: nat) {
    v.String? && v.s != [] && |v.s| <= limit
  }

  /** Whole bytes in hexadecimal. */
  predicate HexBytes(v: Json) {
    v.String? && |v.s| >= 2 && |v.s| <= 131074 && |v.s| % 2 == 0 && Patterns.HexText(v.s, |v.s| - 2)
  }

  lemma HexExactly(v: Json)
    ensures IsHexText(v) <==> HexBytes(v)
  {
    hide Patterns.HexText;
    if v.String? && |v.s| >= 2 {
      Patterns.HexTextIs(v.s, |v.s| - 2);
    }
  }

  lemma OnlyExactly(v: Json, names: seq<string>)
    ensures OnlyKeys(v, names) <==> OnlyNamed(v, names)
  {
    hide Keys;
    OnlyNamedExactly(v, names);
  }

  predicate Word(v: Json, word: string) {
    v == String(Ascii(word))
  }

  predicate SignerIsGood(v: Json) {
    && OnlyNamed(v, ["id", "kind", "publicKey"])
    && Field(v, "id").String? && IsBundleId(Field(v, "id").s)
    && (Word(Field(v, "kind"), "passkey") || Word(Field(v, "kind"), "recovery")
      || Word(Field(v, "kind"), "operational"))
    && (Field(v, "publicKey").Undefined? || HexBytes(Field(v, "publicKey")))
  }

  lemma SignerExactly(v: Json)
    ensures ValidSigner(v) <==> SignerIsGood(v)
  {
    hide OnlyKeys, OnlyNamed, Field, Ascii, IsBundleId, IsHexText, HexBytes;
    OnlyExactly(v, ["id", "kind", "publicKey"]);
    HexExactly(Field(v, "publicKey"));
    var words := ["passkey", "recovery", "operational"];
    assert words[0] in words && words[1] in words && words[2] in words;
  }

  predicate ModuleIsGood(v: Json) {
    && OnlyNamed(v, ["address", "type", "version", "codeHash"])
    && Field(v, "address").String? && ValidAddress(Field(v, "address").s)
    && Text1To(Field(v, "type"), 64) && Text1To(Field(v, "version"), 128) && HexBytes(Field(v, "codeHash"))
  }

  lemma ModuleExactly(v: Json)
    ensures ValidModule(v) <==> ModuleIsGood(v)
  {
    hide OnlyKeys, OnlyNamed, Field, IsHexText, HexBytes, ValidAddress;
    OnlyExactly(v, ["address", "type", "version", "codeHash"]);
    HexExactly(Field(v, "codeHash"));
  }

  predicate ControlIsGood(v: Json) {
    && OnlyNamed(v, ["recoveryAvailable", "signers", "modules"])
    && Field(v, "recoveryAvailable").Bool?
    && Field(v, "signers").Array? && (forall item | item in Field(v, "signers").items :: SignerIsGood(item))
    && Field(v, "modules").Array? && (forall item | item in Field(v, "modules").items :: ModuleIsGood(item))
  }

  lemma ControlExactly(v: Json)
    ensures ValidControl(v) <==> ControlIsGood(v)
  {
    hide OnlyKeys, OnlyNamed, Field, ValidSigner, SignerIsGood, ValidModule, ModuleIsGood;
    OnlyExactly(v, ["recoveryAvailable", "signers", "modules"]);
    forall item ensures ValidSigner(item) <==> SignerIsGood(item) {
      SignerExactly(item);
    }
    forall item ensures ValidModule(item) <==> ModuleIsGood(item) {
      ModuleExactly(item);
    }
  }

  predicate TokenKind(v: Json) {
    Word(v, "erc20") || Word(v, "erc721") || Word(v, "erc1155")
  }

  predicate AssetIsGood(v: Json) {
    && OnlyNamed(v, ["kind", "address", "tokenId", "balance"])
    && (|| Word(Field(v, "kind"), "native")
        || (TokenKind(Field(v, "kind")) && Field(v, "address").String? && ValidAddress(Field(v, "address").s)))
    && (Field(v, "tokenId").Undefined? || Text1To(Field(v, "tokenId"), 128))
    && (Field(v, "balance").Undefined? || Text1To(Field(v, "balance"), 80))
  }

  lemma NotNative()
    ensures Ascii("erc20") != Ascii("native") && Ascii("erc721") != Ascii("native")
      && Ascii("erc1155") != Ascii("native")
  {
    assert Ascii("native")[0] == 'n' as int && Ascii("erc20")[0] == 'e' as int;
    assert Ascii("erc721")[0] == 'e' as int && Ascii("erc1155")[0] == 'e' as int;
  }

  lemma AssetExactly(v: Json)
    ensures ValidAsset(v) <==> AssetIsGood(v)
  {
    hide OnlyKeys, OnlyNamed, Field, ValidAddress, Ascii;
    OnlyExactly(v, ["kind", "address", "tokenId", "balance"]);
    NotNative();
    var words := ["native", "erc20", "erc721", "erc1155"];
    assert words[0] in words && words[1] in words && words[2] in words && words[3] in words;
  }

  predicate HistoryIsGood(v: Json) {
    match v
    case Object(_) =>
      && OnlyNamed(v, ["cursor", "digest"])
      && (Field(v, "cursor").Undefined? || Text1To(Field(v, "cursor"), 256))
      && (Field(v, "digest").Undefined? || HexBytes(Field(v, "digest")))
    case Array(items) => items == []
    case String(s) => s == []
    case Null => false
    case _ => true
  }

  lemma HistoryExactly(v: Json)
    ensures ValidHistory(v) <==> HistoryIsGood(v)
  {
    hide OnlyKeys, OnlyNamed, Field, IsHexText, HexBytes;
    OnlyExactly(v, ["cursor", "digest"]);
    HexExactly(Field(v, "digest"));
  }

  predicate WalletIsGood(v: Json) {
    && OnlyNamed(v, ["address", "chainId", "did", "locator"])
    && Field(v, "chainId").Number? && Field(v, "chainId").n > 0 && Field(v, "chainId").n <= 9007199254740991
    && Field(v, "address").String? && ValidAddress(Field(v, "address").s)
    && (Field(v, "did").Undefined? || Text1To(Field(v, "did"), 256))
    && (Field(v, "locator").Undefined? || Text1To(Field(v, "locator"), 256))
  }

  lemma WalletExactly(v: Json)
    ensures ValidWallet(v) <==> WalletIsGood(v)
  {
    hide OnlyKeys, OnlyNamed, Field, ValidAddress;
    OnlyExactly(v, ["address", "chainId", "did", "locator"]);
  }

  /** A state is portable exactly when nothing in it is named like a secret or lies too deep, and its wallet,
      control, assets and history are as they should be, with nothing else but the backup. */
  lemma StateExactly(v: Json, secret: SecretPattern)
    ensures ValidState(v, secret) <==>
      && SafeBelow(v, secret, 0) && OnlyNamed(v, ["wallet", "control", "assets", "history", "vaultBackup"])
      && WalletIsGood(Field(v, "wallet")) && ControlIsGood(Field(v, "control"))
      && Field(v, "assets").Array? && (forall item | item in Field(v, "assets").items :: AssetIsGood(item))
      && HistoryIsGood(Field(v, "history"))
  {
    hide OnlyKeys, OnlyNamed, Field, NoSecrets, SafeBelow, ValidWallet, WalletIsGood, ValidControl, ControlIsGood,
      ValidAsset, AssetIsGood, ValidHistory, HistoryIsGood;
    SecretsExactly(v, 0, secret);
    OnlyExactly(v, ["wallet", "control", "assets", "history", "vaultBackup"]);
    WalletExactly(Field(v, "wallet"));
    ControlExactly(Field(v, "control"));
    HistoryExactly(Field(v, "history"));
    forall item ensures ValidAsset(item) <==> AssetIsGood(item) {
      AssetExactly(item);
    }
  }

  // ------------------------------------------------------------------ bundles

  /** A date of at most 64 characters. */
  predicate DateIsGood(t: Text, dates: Dates) {
    t != [] && |t| <= 64 && Units(t) && dates(t).Some?
  }

  /** The header signed and sealed with: its fields in order, and the encryption. */
  function HeaderObject(h: Header): Json {
    Object([
      Member(Ascii("format"), String(Ascii("ssw-wallet-migration"))), Member(Ascii("version"), Number(1)),
      Member(Ascii("bundleId"), String(h.bundleId)), Member(Ascii("keyId"), String(h.keyId)),
      Member(Ascii("issuedAt"), String(h.issuedAt)), Member(Ascii("expiresAt"), String(h.expiresAt)),
      Member(Ascii("walletAddress"), String(h.walletAddress)), Member(Ascii("chainId"), Number(h.chainId)),
      Member(Ascii("encryption"), Object([
        Member(Ascii("algorithm"), String(Ascii("AES-GCM-256"))),
        Member(Ascii("strategy"),
          String(match h.strategy case Prf => Ascii("prf") case Phrase => Ascii("passphrase")))]))])
  }

  lemma HeaderExactly(h: Header)
    ensures Record(HEADER_NAMES, HeaderValues(h)) == HeaderObject(h)
  {
    hide Ascii;
    assert EncryptionJson(h.strategy).members == [
      Member(Ascii("algorithm"), String(Ascii("AES-GCM-256"))),
      Member(Ascii("strategy"), String(match h.strategy case Prf => Ascii("prf") case Phrase => Ascii("passphrase")))];
    assert Record(HEADER_NAMES, HeaderValues(h)).members == HeaderObject(h).members;
  }

  /** The header of the wallet that leaves. */
  predicate HeaderIs(h: Header, i: ExportInput) {
    && h.bundleId == i.bundleId && h.keyId == i.keyId && h.issuedAt == i.issuedAt && h.expiresAt == i.expiresAt
    && h.strategy == i.options.strategy
    && Field(Field(i.state, "wallet"), "address") == String(h.walletAddress)
    && Field(Field(i.state, "wallet"), "chainId") == Number(h.chainId)
  }

  predicate MayLeave(i: ExportInput, secret: SecretPattern, dates: Dates) {
    i.authorized && ValidState(i.state, secret) && DateIsGood(i.expiresAt, dates) && DateIsGood(i.issuedAt, dates)
  }

  /** A bundle is made exactly with consent, for a portable state, dates in order and ids, when the state can be
      written and sealed and the whole is small enough; it holds the state sealed under its header, and the
      signature of both. */
  lemma ExportExactly(i: ExportInput, secret: SecretPattern, dates: Dates)
    ensures
      var (r, plain) := (ExportBundle(i, secret, dates), SerialBytes(i.state));
      var made := if plain.Some? then CreateEnvelope(plain.value, i.options, HeaderBytes(ExportHeader(i))) else None;
      var later := DateIsGood(i.expiresAt, dates) && DateIsGood(i.issuedAt, dates)
        && dates(i.expiresAt).value > dates(i.issuedAt).value;
      && (r.Ok? <==>
            && MayLeave(i, secret, dates) && later && IsBundleId(i.bundleId) && IsBundleId(i.keyId)
            && made.Some? && i.small)
      && (r.Ok? ==>
            && HeaderIs(r.value.header, i) && made == Some(r.value.envelope)
            && r.value.signature == Signature(i.keyId, r.value.header, r.value.envelope))
      && (r == Err(AuthorizationRequired) <==> !i.authorized)
      && (r == Err(BundleExpired) <==> MayLeave(i, secret, dates) && !later)
  {
    hide ValidState, SerialBytes, CreateEnvelope, HeaderBytes, IsBundleId, Field;
    if ValidState(i.state, secret) {
      WalletIsThere(i.state, secret);
    }
  }

  lemma WalletIsThere(v: Json, secret: SecretPattern)
    requires ValidState(v, secret)
    ensures Field(Field(v, "wallet"), "address").String? && Field(Field(v, "wallet"), "chainId").Number?
  {
    hide Field, NoSecrets, OnlyKeys, ValidControl, ValidAsset, ValidHistory, ValidAddress;
  }

  /** The same header with its address in lower case. */
  function Lowered(h: Header): Header {
    Header(h.bundleId, h.keyId, h.issuedAt, h.expiresAt, Lower(h.walletAddress), h.chainId, h.strategy)
  }

  predicate IsKnown(b: Bundle) {
    b.envelope.version == 1 && b.envelope.aesGcm
  }

  predicate HeaderIsGood(b: Bundle, dates: Dates) {
    var h := b.header;
    && b.envelope.strategy == h.strategy && IsBundleId(h.bundleId) && IsBundleId(h.keyId)
    && DateIsGood(h.issuedAt, dates) && DateIsGood(h.expiresAt, dates) && ValidAddress(h.walletAddress)
    && h.chainId > 0 && h.chainId <= 9007199254740991
  }

  lemma ParsedExactly(b: Bundle, dates: Dates)
    ensures
      var r := ParseBundle(b, dates);
      && (r.Ok? <==> IsKnown(b) && HeaderIsGood(b, dates))
      && (r.Ok? ==> r.value == Bundle(Lowered(b.header), b.envelope, b.signature))
      && (r == Err(BundleError.UnsupportedVersion) <==> !IsKnown(b))
      && (r.Err? ==> r.error == BundleError.UnsupportedVersion || r.error == InvalidBundle)
  {
    hide IsBundleId, ValidAddress, Lower;
  }

  predicate Timely(b: Bundle, o: Opening, dates: Dates) {
    IsKnown(b) && HeaderIsGood(b, dates) && dates(b.header.expiresAt).value > o.now
  }

  predicate Signed(b: Bundle) {
    b.signature == Signature(b.header.keyId, Lowered(b.header), b.envelope)
  }

  /** Any bundle opens exactly when its header is good, it has not expired, its key signed it with the address in
      lower case, with consent and the secret, when it is sealed under that header and holds a portable state of the
      very account; and then it opens to that state. */
  lemma OpenExactly(b: Bundle, o: Opening, secret: SecretPattern, dates: Dates)
    ensures
      var (r, plain) := (OpenBundle(b, o, secret, dates), OpenEnvelope(b.envelope, o.secret));
      var state := if plain.Some? then FromJsonBytes(plain.value, o.rounding) else None;
      && (r.Ok? <==>
            && Timely(b, o, dates) && Signed(b) && o.authorized
            && b.envelope.aad == Some(EncodeBytes(HeaderBytes(Lowered(b.header))))
            && state.Some? && ValidState(state.value, secret)
            && Field(Field(state.value, "wallet"), "address") == String(Lower(b.header.walletAddress))
            && Field(Field(state.value, "wallet"), "chainId") == Number(b.header.chainId))
      && (r.Ok? ==> state == Some(r.value))
  {
    hide OpenEnvelope, FromJsonBytes, ValidState, EncodeBytes, HeaderBytes, HeaderIsGood, ParseBundle, Lower, Field,
      IsKnown;
    ParsedExactly(b, dates);
    assert HeaderIsGood(b, dates) ==> DateIsGood(b.header.expiresAt, dates) by { HeaderParts(b, dates); }
    var plain := OpenEnvelope(b.envelope, o.secret);
    if plain.Some? && FromJsonBytes(plain.value, o.rounding).Some? {
      var state := FromJsonBytes(plain.value, o.rounding).value;
      if ValidState(state, secret) {
        WalletIsThere(state, secret);
      }
    }
  }

  lemma HeaderParts(b: Bundle, dates: Dates)
    ensures HeaderIsGood(b, dates) ==> DateIsGood(b.header.expiresAt, dates)
  {
    hide DateIsGood, ValidAddress, IsBundleId;
  }

  /** Why it does not: first its version, then its date, signature and consent. */
  lemma OpenRefused(b: Bundle, o: Opening, secret: SecretPattern, dates: Dates)
    ensures
      var r := OpenBundle(b, o, secret, dates);
      && (r == Err(BundleError.UnsupportedVersion) <==> !IsKnown(b))
      && (r == Err(BundleExpired) <==> IsKnown(b) && HeaderIsGood(b, dates) && !Timely(b, o, dates))
      && (r == Err(SignatureInvalid) <==> Timely(b, o, dates) && !Signed(b))
      && (r == Err(AuthorizationRequired) <==> Timely(b, o, dates) && Signed(b) && !o.authorized)
  {
    hide OpenEnvelope, FromJsonBytes, ValidState, EncodeBytes, HeaderBytes, HeaderIsGood, ParseBundle, Lower, AddressOf,
      ChainOf, IsKnown;
    ParsedExactly(b, dates);
    assert HeaderIsGood(b, dates) ==> DateIsGood(b.header.expiresAt, dates) by { HeaderParts(b, dates); }
  }
}
