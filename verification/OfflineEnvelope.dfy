/** Signed offline QR envelopes: strict parsing, creation, and the payload that is signed. */
module OfflineEnvelope {
  import opened Strings
  import opened Wrappers
  import opened Json
  import opened JsonRoundTrip
  import opened CanonicalForm
  import opened CanonicalText
  import opened Records
  import opened Base64Url
  import Utf8

  const MAX_CREDENTIAL_BYTES := 8192
  const MAX_IDENTIFIER_BYTES := 256
  const MAX_SIGNATURE_BYTES := 4096

  /** The fields of an unsigned envelope; `format` and `schemaVersion` are constants. */
  datatype Unsigned = Unsigned(
    envelopeId: Text, tenantId: Text, jurisdiction: Text, issuerId: Text, schemaId: Text, keyId: Text,
    statusId: Text, issuedAt: int, expiresAt: int, nonce: Text, credential: Text)

  datatype Envelope = Envelope(unsigned: Unsigned, signature: Text)

  const UNSIGNED_NAMES: seq<string> := [
    "format", "schemaVersion", "envelopeId", "tenantId", "jurisdiction", "issuerId", "schemaId", "keyId",
    "statusId", "issuedAt", "expiresAt", "nonce", "credential"]
  const SIGNED_NAMES: seq<string> := [
    "format", "schemaVersion", "envelopeId", "tenantId", "jurisdiction", "issuerId", "schemaId", "keyId",
    "statusId", "issuedAt", "expiresAt", "nonce", "credential", "signature"]

  function UnsignedValues(u: Unsigned): (r: seq<Json>)
    ensures |r| == |UNSIGNED_NAMES|
  {
    [ String(Ascii("ssw-offline-envelope")), Number(1), String(u.envelopeId), String(u.tenantId),
      String(u.jurisdiction), String(u.issuerId), String(u.schemaId), String(u.keyId), String(u.statusId),
      Number(u.issuedAt), Number(u.expiresAt), String(u.nonce), String(u.credential) ]
  }

  function UnsignedJson(u: Unsigned): Json {
    Record(UNSIGNED_NAMES, UnsignedValues(u))
  }

  function SignedJson(u: Unsigned, signature: Text): Json {
    Record(SIGNED_NAMES, UnsignedValues(u) + [String(signature)])
  }

  // ---------------------------------------------------------------- patterns

  predicate IsAlphanumeric(c: CodeUnit) {
    0x41 <= c <= 0x5a || 0x61 <= c <= 0x7a || IsDigit(c)
  }

  /** `. _ : / # ? @ % + ~ -` */
  predicate IsIdentifierMark(c: CodeUnit) {
    c in {0x2e, 0x5f, 0x3a, 0x2f, 0x23, 0x3f, 0x40, 0x25, 0x2b, 0x7e, 0x2d}
  }

  datatype Pattern = Identifier | Nonce | Base64 | Anything

  predicate Matches(pattern: Pattern, t: Text) {
    match pattern
    case Identifier =>
      && 1 <= |t| <= 256
      && IsAlphanumeric(t[0])
      && forall i | 1 <= i < |t| :: IsAlphanumeric(t[i]) || IsIdentifierMark(t[i])
    case Nonce => 16 <= |t| <= 128 && IsBase64Url(t)
    case Base64 => IsBase64Url(t)
    case Anything => true
  }

  predicate SafeString(t: Text, max: nat, pattern: Pattern) {
    0 < |t| && |Utf8.Encode(t)| <= max && !HasControl(t) && Matches(pattern, t)
  }

  predicate SafeTime(n: int) {
    IsSafeInteger(n) && n >= 0
  }

  // ----------------------------------------------------------------- parsing

  function ReadString(v: Json, max: nat, pattern: Pattern): Result<Text, EnvelopeError> {
    if v.String? && SafeString(v.s, max, pattern) then Ok(v.s) else Err(MalformedEnvelope)
  }

  function ReadTime(v: Json): Result<int, EnvelopeError> {
    if v.Number? && SafeTime(v.n) then Ok(v.n) else Err(MalformedEnvelope)
  }

  function ReadIdentifier(v: Json): Result<Text, EnvelopeError> {
    ReadString(v, MAX_IDENTIFIER_BYTES, Identifier)
  }

  function ParseUnsigned(v: Json): Result<Unsigned, EnvelopeError> {
    if !v.Object? || !ExactKeys(v.members, UNSIGNED_NAMES, []) then Err(MalformedEnvelope)
    else ReadUnsigned(v)
  }

  function ReadUnsigned(v: Json): Result<Unsigned, EnvelopeError> {
    var version := Field(v, "schemaVersion");
    if Field(v, "format") != String(Ascii("ssw-offline-envelope")) then Err(MalformedEnvelope)
    else if version != Number(1) then
      Err(if version.Number? && version.n < 1 then DowngradeDetected else UnsupportedVersion)
    else
      var issuedAt :- ReadTime(Field(v, "issuedAt"));
      var expiresAt :- ReadTime(Field(v, "expiresAt"));
      if expiresAt <= issuedAt then Err(MalformedEnvelope)
      else
        var envelopeId :- ReadIdentifier(Field(v, "envelopeId"));
        var tenantId :- ReadIdentifier(Field(v, "tenantId"));
        var jurisdiction :- ReadIdentifier(Field(v, "jurisdiction"));
        var issuerId :- ReadIdentifier(Field(v, "issuerId"));
        var schemaId :- ReadIdentifier(Field(v, "schemaId"));
        var keyId :- ReadIdentifier(Field(v, "keyId"));
        var statusId :- ReadIdentifier(Field(v, "statusId"));
        var nonce :- ReadString(Field(v, "nonce"), 128, Nonce);
        var credential :- ReadString(Field(v, "credential"), MAX_CREDENTIAL_BYTES, Anything);
        Ok(Unsigned(envelopeId, tenantId, jurisdiction, issuerId, schemaId, keyId, statusId,
                    issuedAt, expiresAt, nonce, credential))
  }

  function ReadSigned(v: Json): Result<Envelope, EnvelopeError> {
    if !v.Object? || !ExactKeys(v.members, SIGNED_NAMES, []) then Err(MalformedEnvelope)
    else
      var unsigned :- ParseUnsigned(Object(Without(v.members, Ascii("signature"))));
      var signature :- ReadString(Field(v, "signature"), MAX_SIGNATURE_BYTES, Base64);
      Ok(Envelope(unsigned, signature))
  }

  function ParseEnvelope(encoded: Text, rounding: Rounding): Result<Envelope, EnvelopeError> {
    var source :- Decode64(encoded);
    match Parse(source, READER_LIMITS, rounding)
    case None => Err(MalformedEnvelope)
    case Some(v) => ReadSigned(v)
  }

  // ---------------------------------------------------------------- creating

  /** The string that is signed, and that verification rebuilds. */
  function SigningPayload(u: Unsigned): Result<Text, EnvelopeError> {
    var parsed :- ParseUnsigned(UnsignedJson(u));
    match Canonical(UnsignedJson(parsed))
    case None => Err(MalformedEnvelope)
    case Some(text) => Ok(Ascii("ssw-offline-envelope-v1\n") + text)
  }

  /** Signing a payload with a key; the answer is checked, so any text may come back. */
  type Signer = (Text, Text) -> Text

  function CreateEnvelope(input: Json, sign: Signer): Result<Text, EnvelopeError> {
    var unsigned :- ParseUnsigned(input);
    var payload :- SigningPayload(unsigned);
    var signature :- ReadString(String(sign(unsigned.keyId, payload)), MAX_SIGNATURE_BYTES, Base64);
    match Canonical(SignedJson(unsigned, signature))
    case None => Err(MalformedEnvelope)
    case Some(text) =>
      if |Encode64(text)| > MAX_ENVELOPE_BYTES then Err(PayloadTooLarge) else Ok(Encode64(text))
  }

  // ------------------------------------------------------- what is accepted

  /** What a parsed envelope guarantees. */
  predicate ValidUnsigned(u: Unsigned) {
    && SafeTime(u.issuedAt) && SafeTime(u.expiresAt) && u.issuedAt < u.expiresAt
    && SafeString(u.envelopeId, MAX_IDENTIFIER_BYTES, Identifier)
    && SafeString(u.tenantId, MAX_IDENTIFIER_BYTES, Identifier)
    && SafeString(u.jurisdiction, MAX_IDENTIFIER_BYTES, Identifier)
    && SafeString(u.issuerId, MAX_IDENTIFIER_BYTES, Identifier)
    && SafeString(u.schemaId, MAX_IDENTIFIER_BYTES, Identifier)
    && SafeString(u.keyId, MAX_IDENTIFIER_BYTES, Identifier)
    && SafeString(u.statusId, MAX_IDENTIFIER_BYTES, Identifier)
    && SafeString(u.nonce, 128, Nonce)
    && SafeString(u.credential, MAX_CREDENTIAL_BYTES, Anything)
  }

  lemma SignedNames()
    ensures FieldNames(SIGNED_NAMES)
  {
    DistinctSignedNames();
    LetterNames();
  }

  lemma LetterNames()
    ensures Letters(SIGNED_NAMES)
  {
    hide Letters;
    FirstNames();
    MiddleNames();
    LastNames();
    LettersAppend(FIRST_NAMES, MIDDLE_NAMES);
    LettersAppend(FIRST_NAMES + MIDDLE_NAMES, LAST_NAMES);
    assert SIGNED_NAMES == FIRST_NAMES + MIDDLE_NAMES + LAST_NAMES;
  }

  const FIRST_NAMES: seq<string> := ["format", "schemaVersion", "envelopeId", "tenantId", "jurisdiction"]
  const MIDDLE_NAMES: seq<string> := ["issuerId", "schemaId", "keyId", "statusId", "issuedAt"]
  const LAST_NAMES: seq<string> := ["expiresAt", "nonce", "credential", "signature"]

  lemma FirstNames()
    ensures Letters(FIRST_NAMES)
  {}

  lemma MiddleNames()
    ensures Letters(MIDDLE_NAMES)
  {}

  lemma LastNames()
    ensures Letters(LAST_NAMES)
  {}

  lemma DistinctSignedNames()
    ensures forall i, j | 0 <= i < j < |SIGNED_NAMES| :: SIGNED_NAMES[i] != SIGNED_NAMES[j]
  {
    assert "tenantId"[0] != "issuerId"[0] && "schemaId"[1] != "statusId"[1];
    assert "issuedAt"[5] != "issuerId"[5] && "envelopeId"[0] != "credential"[0];
    assert "expiresAt"[0] != "signature"[0] && "keyId"[0] != "nonce"[0];
  }

  lemma UnsignedNames()
    ensures UNSIGNED_NAMES == SIGNED_NAMES[..13] && SIGNED_NAMES[13] == "signature"
    ensures FieldNames(UNSIGNED_NAMES)
  {
    assert UNSIGNED_NAMES == SIGNED_NAMES[..13];
    SignedNames();
    forall name | name in UNSIGNED_NAMES ensures name in SIGNED_NAMES {}
    forall i, j | 0 <= i < j < 13 ensures UNSIGNED_NAMES[i] != UNSIGNED_NAMES[j] {
      assert UNSIGNED_NAMES[i] == SIGNED_NAMES[i] && UNSIGNED_NAMES[j] == SIGNED_NAMES[j];
    }
  }

  /** Whether every field of v is the field of this envelope. */
  predicate HasFields(v: Json, u: Unsigned) {
    forall i | 0 <= i < |UNSIGNED_NAMES| :: Field(v, UNSIGNED_NAMES[i]) == UnsignedValues(u)[i]
  }

  /** An object with an envelope's fields is read exactly when the envelope is valid. */
  lemma ReadFields(v: Json, u: Unsigned)
    requires HasFields(v, u)
    ensures ReadUnsigned(v) == if ValidUnsigned(u) then Ok(u) else Err(MalformedEnvelope)
  {
    hide SafeString, SafeTime, Field;
    var values := UnsignedValues(u);
    assert Field(v, UNSIGNED_NAMES[0]) == values[0] && Field(v, UNSIGNED_NAMES[1]) == values[1];
    assert Field(v, UNSIGNED_NAMES[2]) == values[2] && Field(v, UNSIGNED_NAMES[3]) == values[3];
    assert Field(v, UNSIGNED_NAMES[4]) == values[4] && Field(v, UNSIGNED_NAMES[5]) == values[5];
    assert Field(v, UNSIGNED_NAMES[6]) == values[6] && Field(v, UNSIGNED_NAMES[7]) == values[7];
    assert Field(v, UNSIGNED_NAMES[8]) == values[8] && Field(v, UNSIGNED_NAMES[9]) == values[9];
    assert Field(v, UNSIGNED_NAMES[10]) == values[10] && Field(v, UNSIGNED_NAMES[11]) == values[11];
    assert Field(v, UNSIGNED_NAMES[12]) == values[12];
  }

  /** What the parser returns is a valid envelope, and reading that envelope again changes nothing. */
  lemma ParsedIsValid(v: Json)
    ensures match ParseUnsigned(v) case Ok(u) => ValidUnsigned(u) case Err(_) => true
  {
    hide SafeString, SafeTime, Field, ExactKeys;
  }

  /** The parser accepts the object of an envelope exactly when the envelope is valid. */
  lemma ParseUnsignedJson(u: Unsigned)
    ensures ParseUnsigned(UnsignedJson(u)) == if ValidUnsigned(u) then Ok(u) else Err(MalformedEnvelope)
  {
    hide ExactKeys, ReadUnsigned, ValidUnsigned, Field, Record;
    UnsignedNames();
    var v := UnsignedJson(u);
    forall i | 0 <= i < |UNSIGNED_NAMES| ensures Field(v, UNSIGNED_NAMES[i]) == UnsignedValues(u)[i] {
      FieldOfRecord(UNSIGNED_NAMES, UnsignedValues(u), i);
    }
    ReadFields(v, u);
    RecordExact(UNSIGNED_NAMES, UnsignedValues(u));
    RecordIsObject(UNSIGNED_NAMES, UnsignedValues(u));
  }

  lemma RecordIsObject(names: seq<string>, values: seq<Json>)
    requires |names| == |values|
    ensures Record(names, values).Object?
  {}

  // -------------------------------------------------------------- round trip

  /** The values of the parsed fields are those of the object parsed. */
  lemma ParsedHasFields(v: Json)
    ensures match ParseUnsigned(v) case Ok(u) => HasFields(v, u) case Err(_) => true
  {
    hide SafeString, SafeTime, Field, ExactKeys;
  }

  ghost predicate Carried(v: Json) {
    WellFormed(v) && v != Undefined && Printable(v) && Fits(v, 1, READER_LIMITS) && Norm(v) == v
  }

  lemma CarriedString(t: Text)
    requires Units(t) && !HasControl(t)
    ensures Carried(String(t))
  {}

  lemma CarriedNumber(n: int)
    requires IsSafeInteger(n)
    ensures Carried(Number(n))
  {}

  lemma FormatName()
    ensures !HasControl(Ascii("ssw-offline-envelope"))
  {
    hide HasControl;
    assert "ssw-offline-envelope" == "ssw-offline-" + "envelope";
    assert forall c | c in "ssw-offline-" :: 0x20 < c as int < 0x7f;
    assert forall c | c in "envelope" :: 0x20 < c as int < 0x7f;
    NoControl("ssw-offline-envelope");
  }

  lemma NoControl(s: string)
    requires forall c | c in s :: 0x20 < c as int < 0x7f
    ensures !HasControl(Ascii(s))
  {
    forall i | 0 <= i < |s| ensures !IsControl(Ascii(s)[i]) {
      assert s[i] in s;
    }
  }

  lemma ValidValues(u: Unsigned)
    requires ValidUnsigned(u) && forall v | v in UnsignedValues(u) :: WellFormed(v)
    ensures forall v | v in UnsignedValues(u) :: Carried(v)
  {
    hide Matches, Utf8.Encode, HasControl, Carried;
    FormatName();
    forall v | v in UnsignedValues(u) ensures Carried(v) {
      if v.String? {
        CarriedString(v.s);
      } else {
        CarriedNumber(v.n);
      }
    }
  }

  lemma SignatureValue(signature: Text)
    requires SafeString(signature, MAX_SIGNATURE_BYTES, Base64)
    ensures Carried(String(signature))
  {
    hide Utf8.Encode, Carried, HasControl;
    CarriedUnits(signature);
    CarriedString(signature);
  }

  lemma CarriedUnits(signature: Text)
    requires IsBase64Url(signature)
    ensures Units(signature)
  {
    forall i | 0 <= i < |signature| ensures 0 <= signature[i] < 0x10000 {
      assert SymbolValue(signature[i]).Some?;
    }
  }

  /** Dropping the signature from an object with exactly the signed fields leaves exactly the unsigned ones. */
  lemma WithoutSignature(members: seq<Member>)
    requires ExactKeys(members, SIGNED_NAMES, [])
    ensures ExactKeys(Without(members, Ascii("signature")), UNSIGNED_NAMES, [])
  {
    UnsignedNames();
    SignedNames();
    var rest := Without(members, Ascii("signature"));
    forall name | name in UNSIGNED_NAMES ensures HasKey(rest, Ascii(name)) {
      NotSignature(name);
      assert name in SIGNED_NAMES;
      GetWithout(members, Ascii(name), Ascii("signature"));
    }
    assert SIGNED_NAMES + [] == SIGNED_NAMES && UNSIGNED_NAMES + [] == UNSIGNED_NAMES;
    forall m | m in rest ensures m.key in Keys(UNSIGNED_NAMES) {
      var i :| 0 <= i < |SIGNED_NAMES| && Keys(SIGNED_NAMES)[i] == m.key;
      assert i != 13;
      assert Keys(UNSIGNED_NAMES)[i] == m.key;
    }
  }

  lemma NotSignature(name: string)
    requires name in UNSIGNED_NAMES
    ensures Ascii(name) != Ascii("signature")
  {
    UnsignedNames();
    SignedNames();
    var i :| 0 <= i < 13 && UNSIGNED_NAMES[i] == name;
    assert SIGNED_NAMES[i] != SIGNED_NAMES[13];
    if Ascii(name) == Ascii("signature") {
      NameInjective(name, "signature");
    }
  }

  /** A field of the canonical form of a record of plain values is the value written. */
  lemma NormField(names: seq<string>, values: seq<Json>, i: nat)
    requires |names| == |values| && FieldNames(names) && i < |names|
    requires forall v | v in values :: Carried(v)
    ensures Field(Norm(Record(names, values)), names[i]) == values[i]
  {
    hide Norm;
    var v := Record(names, values);
    RecordWellFormed(names, values);
    FieldOfRecord(names, values, i);
    GetOfNorm(v, Ascii(names[i]));
    NormIsObject(v);
    assert values[i] in values;
  }

  /** The canonical form of a signed envelope reads back as that envelope. */
  lemma ReadNormSigned(u: Unsigned, signature: Text)
    requires ValidUnsigned(u) && SafeString(signature, MAX_SIGNATURE_BYTES, Base64)
    requires forall v | v in UnsignedValues(u) :: Carried(v)
    ensures ReadSigned(Norm(SignedJson(u, signature))) == Ok(Envelope(u, signature))
  {
    hide ValidUnsigned, SafeString, Norm, NormObject, ExactKeys, ReadUnsigned, Record, Get, Without, Carried;
    SignatureValue(signature);
    SignedNames();
    UnsignedNames();
    var values := UnsignedValues(u) + [String(signature)];
    var v := SignedJson(u, signature);
    RecordIsObject(SIGNED_NAMES, values);
    NormIsObject(v);
    CarriedParts(values);
    NormExact(SIGNED_NAMES, values);
    var rest := Object(Without(Norm(v).members, Ascii("signature")));
    WithoutSignature(Norm(v).members);
    forall i | 0 <= i < |UNSIGNED_NAMES| ensures Field(rest, UNSIGNED_NAMES[i]) == UnsignedValues(u)[i] {
      assert UNSIGNED_NAMES[i] == SIGNED_NAMES[i] && values[i] == UnsignedValues(u)[i];
      NormField(SIGNED_NAMES, values, i);
      NotSignature(UNSIGNED_NAMES[i]);
      GetWithout(Norm(v).members, Ascii(UNSIGNED_NAMES[i]), Ascii("signature"));
    }
    ReadFields(rest, u);
    NormField(SIGNED_NAMES, values, 13);
  }

  lemma CarriedParts(values: seq<Json>)
    requires forall v | v in values :: Carried(v)
    ensures forall v | v in values :: WellFormed(v) && v != Undefined && Printable(v) && Fits(v, 1, READER_LIMITS)
  {}

  /** The signed object prints, survives base64url and UTF-8, and reads back as the envelope. */
  lemma SignedRoundTrip(u: Unsigned, signature: Text, rounding: Rounding)
    requires ValidUnsigned(u) && SafeString(signature, MAX_SIGNATURE_BYTES, Base64)
    requires forall v | v in UnsignedValues(u) :: WellFormed(v)
    ensures Canonical(SignedJson(u, signature)).Some?
    ensures
      var text := Encode64(Canonical(SignedJson(u, signature)).value);
      |text| <= MAX_ENVELOPE_BYTES ==> ParseEnvelope(text, rounding) == Ok(Envelope(u, signature))
  {
    hide ValidUnsigned, SafeString, Record, Norm, ReadSigned, Decode64, Parse, Carried, Fits;
    var values := UnsignedValues(u) + [String(signature)];
    var v := SignedJson(u, signature);
    ValidValues(u);
    SignatureValue(signature);
    CarriedParts(values);
    SignedNames();
    RecordWellFormed(SIGNED_NAMES, values);
    RecordPrintable(SIGNED_NAMES, values);
    RecordFits(SIGNED_NAMES, values, 0, READER_LIMITS);
    ReaderInvertsCanonical(v, READER_LIMITS, rounding);
    CanonicalEncodable(v);
    var text := Canonical(v).value;
    if |Encode64(text)| <= MAX_ENVELOPE_BYTES {
      RoundTripExact(text);
      ReadNormSigned(u, signature);
    }
  }

  /** Whenever creation succeeds, the envelope parses back to what was signed, and verification
      rebuilds the very string the signer was given. */
  lemma EnvelopeRoundTrip(input: Json, sign: Signer, rounding: Rounding)
    requires WellFormed(input)
    ensures match CreateEnvelope(input, sign)
      case Err(_) => true
      case Ok(text) =>
        && ParseUnsigned(input).Ok?
        && var u := ParseUnsigned(input).value;
        && SigningPayload(u).Ok?
        && var signature := sign(u.keyId, SigningPayload(u).value);
        && ParseEnvelope(text, rounding) == Ok(Envelope(u, signature))
        && SigningPayload(ParseEnvelope(text, rounding).value.unsigned) == SigningPayload(u)
  {
    hide ValidUnsigned, SafeString, Canonical, Encode64, ParseEnvelope, SignedJson, ParseUnsigned, HasFields,
      SigningPayload;
    if CreateEnvelope(input, sign).Ok? {
      var u := ParseUnsigned(input).value;
      ParsedIsValid(input);
      ParsedWellFormed(input);
      var signature := sign(u.keyId, SigningPayload(u).value);
      SignedRoundTrip(u, signature, rounding);
    }
  }

  lemma ParsedWellFormed(v: Json)
    requires WellFormed(v)
    ensures match ParseUnsigned(v)
      case Ok(u) => forall value | value in UnsignedValues(u) :: WellFormed(value)
      case Err(_) => true
  {
    hide UnsignedValues, Get, ReadUnsigned;
    ParsedHasFields(v);
    if ParseUnsigned(v).Ok? {
      var values := UnsignedValues(ParseUnsigned(v).value);
      forall value | value in values ensures WellFormed(value) {
        var i :| 0 <= i < |values| && values[i] == value;
        assert Field(v, UNSIGNED_NAMES[i]) == value;
        GetWellFormed(v.members, Ascii(UNSIGNED_NAMES[i]));
      }
    }
  }

  /** Two envelopes share a signing payload only when they are the same envelope. */
  lemma PayloadInjective(u: Unsigned, w: Unsigned)
    requires ValidUnsigned(u) && ValidUnsigned(w)
    requires forall v | v in UnsignedValues(u) + UnsignedValues(w) :: WellFormed(v)
    ensures SigningPayload(u).Ok? && SigningPayload(w).Ok?
    ensures SigningPayload(u) == SigningPayload(w) <==> u == w
  {
    hide ValidUnsigned, Canonical, Norm, Carried, ParseUnsigned, SameValue, Record, Field;
    PayloadText(u);
    PayloadText(w);
    if SigningPayload(u) == SigningPayload(w) {
      var a, b := UnsignedJson(u), UnsignedJson(w);
      var prefix := Ascii("ssw-offline-envelope-v1\n");
      assert (prefix + Canonical(a).value)[|prefix|..] == Canonical(a).value;
      assert (prefix + Canonical(b).value)[|prefix|..] == Canonical(b).value;
      CanonicalInjective(a, b);
      SameValueSameNorm(a, b);
      UnsignedNames();
      forall i | 0 <= i < |UNSIGNED_NAMES| ensures UnsignedValues(u)[i] == UnsignedValues(w)[i] {
        NormField(UNSIGNED_NAMES, UnsignedValues(u), i);
        NormField(UNSIGNED_NAMES, UnsignedValues(w), i);
      }
      ValuesInjective(u, w);
    }
  }

  lemma PayloadText(u: Unsigned)
    requires ValidUnsigned(u) && forall v | v in UnsignedValues(u) :: WellFormed(v)
    ensures forall v | v in UnsignedValues(u) :: Carried(v)
    ensures WellFormed(UnsignedJson(u)) && Printable(UnsignedJson(u)) && Canonical(UnsignedJson(u)).Some?
    ensures SigningPayload(u) == Ok(Ascii("ssw-offline-envelope-v1\n") + Canonical(UnsignedJson(u)).value)
  {
    hide ValidUnsigned, Canonical, Record, Carried, ParseUnsigned;
    ValidValues(u);
    CarriedParts(UnsignedValues(u));
    UnsignedNames();
    RecordWellFormed(UNSIGNED_NAMES, UnsignedValues(u));
    RecordPrintable(UNSIGNED_NAMES, UnsignedValues(u));
    CanonicalIsPrint(UnsignedJson(u));
    ParseUnsignedJson(u);
  }

  lemma ValuesInjective(u: Unsigned, w: Unsigned)
    requires forall i | 0 <= i < |UNSIGNED_NAMES| :: UnsignedValues(u)[i] == UnsignedValues(w)[i]
    ensures u == w
  {
    var a, b := UnsignedValues(u), UnsignedValues(w);
    assert a[2] == b[2] && a[3] == b[3] && a[4] == b[4] && a[5] == b[5] && a[6] == b[6] && a[7] == b[7];
    assert a[8] == b[8] && a[9] == b[9] && a[10] == b[10] && a[11] == b[11] && a[12] == b[12];
  }
}
