/** Exactly which objects and texts are read as offline envelopes, as which, and when one is made. */
module EnvelopeChecks {
  import opened Strings
  import opened Wrappers
  import opened Json
  import opened CanonicalForm
  import opened Records
  import opened Base64Url
  import opened OfflineEnvelope
  import Utf8
  import RegistryChecks

  /** A text of at most so many bytes, without control characters, of the pattern. */
  predicate TextIs(v: Json, t: Text, limit: nat, pattern: Pattern) {
    v == String(t) && t != [] && |Utf8.Encode(t)| <= limit && !HasControl(t) && Matches(pattern, t)
  }

  predicate IdIs(v: Json, t: Text) {
    TextIs(v, t, 256, Identifier)
  }

  predicate TimeIs(v: Json, n: int) {
    v == Number(n) && n >= 0 && n <= 9007199254740991
  }

  lemma ReadExactly(v: Json, t: Text, limit: nat, pattern: Pattern, n: int)
    ensures ReadString(v, limit, pattern) == Ok(t) <==> TextIs(v, t, limit, pattern)
    ensures ReadTime(v) == Ok(n) <==> TimeIs(v, n)
    ensures ReadString(v, limit, pattern).Err? ==> ReadString(v, limit, pattern).error == MalformedEnvelope
    ensures ReadTime(v).Err? ==> ReadTime(v).error == MalformedEnvelope
  {
    hide Utf8.Encode, HasControl, Matches;
  }

  predicate IdsAre(v: Json, u: Unsigned) {
    && IdIs(Field(v, "envelopeId"), u.envelopeId) && IdIs(Field(v, "tenantId"), u.tenantId)
    && IdIs(Field(v, "jurisdiction"), u.jurisdiction) && IdIs(Field(v, "issuerId"), u.issuerId)
    && IdIs(Field(v, "schemaId"), u.schemaId) && IdIs(Field(v, "keyId"), u.keyId)
    && IdIs(Field(v, "statusId"), u.statusId)
  }

  /** The object of this kind and version. */
  predicate OfKind(v: Json) {
    Field(v, "format") == String(Ascii("ssw-offline-envelope")) && Field(v, "schemaVersion") == Number(1)
  }

  predicate FieldsAre(v: Json, u: Unsigned) {
    && OfKind(v) && IdsAre(v, u)
    && TimeIs(Field(v, "issuedAt"), u.issuedAt) && TimeIs(Field(v, "expiresAt"), u.expiresAt)
      && u.issuedAt < u.expiresAt
    && TextIs(Field(v, "nonce"), u.nonce, 128, Nonce) && TextIs(Field(v, "credential"), u.credential, 8192, Anything)
  }

  /** The properties of an envelope and no others. */
  predicate UnsignedShape(v: Json) {
    RegistryChecks.HasShape(v, [
      "format", "schemaVersion", "envelopeId", "tenantId", "jurisdiction", "issuerId", "schemaId", "keyId",
      "statusId", "issuedAt", "expiresAt", "nonce", "credential"], [])
  }

  predicate SignedShape(v: Json) {
    RegistryChecks.HasShape(v, [
      "format", "schemaVersion", "envelopeId", "tenantId", "jurisdiction", "issuerId", "schemaId", "keyId",
      "statusId", "issuedAt", "expiresAt", "nonce", "credential", "signature"], [])
  }

  lemma IdsExactly(v: Json, u: Unsigned)
    ensures IdsAre(v, u) <==>
      && ReadIdentifier(Field(v, "envelopeId")) == Ok(u.envelopeId)
      && ReadIdentifier(Field(v, "tenantId")) == Ok(u.tenantId)
      && ReadIdentifier(Field(v, "jurisdiction")) == Ok(u.jurisdiction)
      && ReadIdentifier(Field(v, "issuerId")) == Ok(u.issuerId)
      && ReadIdentifier(Field(v, "schemaId")) == Ok(u.schemaId)
      && ReadIdentifier(Field(v, "keyId")) == Ok(u.keyId) && ReadIdentifier(Field(v, "statusId")) == Ok(u.statusId)
  {
    hide Field, IdIs, ReadIdentifier;
    IdExactly(Field(v, "envelopeId"), u.envelopeId);
    IdExactly(Field(v, "tenantId"), u.tenantId);
    IdExactly(Field(v, "jurisdiction"), u.jurisdiction);
    IdExactly(Field(v, "issuerId"), u.issuerId);
    IdExactly(Field(v, "schemaId"), u.schemaId);
    IdExactly(Field(v, "keyId"), u.keyId);
    IdExactly(Field(v, "statusId"), u.statusId);
  }

  lemma IdExactly(v: Json, t: Text)
    ensures ReadIdentifier(v) == Ok(t) <==> IdIs(v, t)
  {
    ReadExactly(v, t, 256, Identifier, 0);
  }

  lemma FieldsExactly(v: Json, u: Unsigned)
    ensures ReadUnsigned(v) == Ok(u) <==> FieldsAre(v, u)
  {
    hide Field, IdsAre, ReadIdentifier, ReadString, ReadTime, TextIs, TimeIs, Ascii;
    IdsExactly(v, u);
    ReadExactly(Field(v, "issuedAt"), u.nonce, 128, Nonce, u.issuedAt);
    ReadExactly(Field(v, "expiresAt"), u.nonce, 128, Nonce, u.expiresAt);
    ReadExactly(Field(v, "nonce"), u.nonce, 128, Nonce, 0);
    ReadExactly(Field(v, "credential"), u.credential, 8192, Anything, 0);
  }

  /** An object is read as an envelope exactly when it has its properties and no others, and each reads. */
  lemma UnsignedExactly(v: Json, u: Unsigned)
    ensures ParseUnsigned(v) == Ok(u) <==> UnsignedShape(v) && FieldsAre(v, u)
  {
    hide FieldsAre, ReadUnsigned, ExactKeys, RegistryChecks.HasShape;
    RegistryChecks.ShapeExactly(v, UNSIGNED_NAMES, []);
    FieldsExactly(v, u);
  }

  /** A lower version is a downgrade, and any other but the known one is not supported; all else is malformed. */
  lemma VersionExactly(v: Json)
    ensures
      var (r, kind) := (ParseUnsigned(v),
                        UnsignedShape(v) && Field(v, "format") == String(Ascii("ssw-offline-envelope")));
      var version := Field(v, "schemaVersion");
      && (r == Err(DowngradeDetected) <==> kind && version.Number? && version.n <= 0)
      && (r == Err(UnsupportedVersion) <==> kind && version != Number(1) && !(version.Number? && version.n <= 0))
      && (r.Err? ==> r.error in {DowngradeDetected, UnsupportedVersion, MalformedEnvelope})
  {
    hide ExactKeys, RegistryChecks.HasShape, Field, Ascii, ReadString, ReadTime;
    RegistryChecks.ShapeExactly(v, UNSIGNED_NAMES, []);
    forall w: Json, limit: nat, pattern | ReadString(w, limit, pattern).Err?
      ensures ReadString(w, limit, pattern).error == MalformedEnvelope {
      ReadExactly(w, [], limit, pattern, 0);
    }
    forall w: Json | ReadTime(w).Err? ensures ReadTime(w).error == MalformedEnvelope {
      ReadExactly(w, [], 0, Identifier, 0);
    }
  }

  /** The fields of an object without its signature. */
  lemma RestFields(v: Json, name: string)
    requires v.Object? && Ascii(name) != Ascii("signature")
    ensures Field(Object(Without(v.members, Ascii("signature"))), name) == Field(v, name)
  {
    hide Ascii;
    GetWithout(v.members, Ascii(name), Ascii("signature"));
  }

  lemma RestIs(v: Json, u: Unsigned)
    requires v.Object?
    ensures FieldsAre(Object(Without(v.members, Ascii("signature"))), u) <==> FieldsAre(v, u)
  {
    hide Field, Ascii, IdIs, TextIs, TimeIs, Without;
    forall name | name in UNSIGNED_NAMES
      ensures Field(Object(Without(v.members, Ascii("signature"))), name) == Field(v, name) {
      NotSignature(name);
      RestFields(v, name);
    }
    var names := UNSIGNED_NAMES;
    assert names[0] in names && names[1] in names && names[2] in names && names[3] in names && names[4] in names;
    assert names[5] in names && names[6] in names && names[7] in names && names[8] in names && names[9] in names;
    assert names[10] in names && names[11] in names && names[12] in names;
  }

  /** And a signed one with its signature, of at most 4096 characters of base64url. */
  lemma SignedExactly(v: Json, e: Envelope)
    ensures ReadSigned(v) == Ok(e) <==>
      SignedShape(v) && FieldsAre(v, e.unsigned) && TextIs(Field(v, "signature"), e.signature, 4096, Base64)
  {
    hide FieldsAre, ReadUnsigned, ExactKeys, RegistryChecks.HasShape, ReadString, TextIs, ParseUnsigned,
      Field, Without;
    RegistryChecks.ShapeExactly(v, SIGNED_NAMES, []);
    ReadExactly(Field(v, "signature"), e.signature, 4096, Base64, 0);
    if SignedShape(v) {
      var rest := Object(Without(v.members, Ascii("signature")));
      WithoutSignature(v.members);
      RegistryChecks.ShapeExactly(rest, UNSIGNED_NAMES, []);
      UnsignedExactly(rest, e.unsigned);
      RestIs(v, e.unsigned);
    }
  }

  /** A text is read as an envelope exactly when it is base64url of JSON that is one. */
  lemma EnvelopeExactly(text: Text, rounding: Rounding, e: Envelope)
    ensures ParseEnvelope(text, rounding) == Ok(e) <==>
      && Decode64(text).Ok? && Parse(Decode64(text).value, READER_LIMITS, rounding).Some?
      && ReadSigned(Parse(Decode64(text).value, READER_LIMITS, rounding).value) == Ok(e)
    ensures Decode64(text).Err? ==> ParseEnvelope(text, rounding) == Err(Decode64(text).error)
  {
    hide Decode64, Parse, ReadSigned;
  }

  // ---------------------------------------------------------------- creating

  /** The signature that the signer gives for an envelope. */
  function SignatureOf(u: Unsigned, sign: Signer): Text
    requires SigningPayload(u).Ok?
  {
    sign(u.keyId, SigningPayload(u).value)
  }

  /** What is signed is the format's name, a line break and the canonical text. */
  lemma PayloadExactly(u: Unsigned)
    requires ValidUnsigned(u) && forall v | v in UnsignedValues(u) :: WellFormed(v)
    ensures Canonical(UnsignedJson(u)).Some?
    ensures SigningPayload(u)
         == Ok(Ascii("ssw-offline-") + Ascii("envelope-v1") + [0x0a] + Canonical(UnsignedJson(u)).value)
  {
    hide ValidUnsigned, Canonical, UnsignedJson;
    PayloadText(u);
    PayloadName();
  }

  lemma PayloadName()
    ensures Ascii("ssw-offline-envelope-v1\n") == Ascii("ssw-offline-") + Ascii("envelope-v1") + [0x0a]
  {
    AsciiJoin("ssw-offline-", "envelope-v1");
    AsciiJoin("ssw-offline-envelope-v1", "\n");
    assert Ascii("\n") == [0x0a];
    hide Ascii;
    assert "ssw-offline-envelope-v1" == "ssw-offline-" + "envelope-v1";
    assert "ssw-offline-envelope-v1\n" == "ssw-offline-envelope-v1" + "\n";
  }

  lemma {:induction false} AsciiJoin(a: string, b: string)
    ensures Ascii(a + b) == Ascii(a) + Ascii(b)
  {
    if |a| > 0 {
      AsciiJoin(a[1..], b);
      assert (a + b)[1..] == a[1..] + b;
    } else {
      assert a + b == b;
    }
  }

  /** An envelope is made exactly from an object that is one, when its signature is base64url of a bounded length,
      and the text is within the bound. */
  lemma CreatedExactly(input: Json, sign: Signer)
    requires WellFormed(input)
    ensures CreateEnvelope(input, sign).Ok? <==>
      && ParseUnsigned(input).Ok? && SigningPayload(ParseUnsigned(input).value).Ok?
      && var u := ParseUnsigned(input).value;
      && TextIs(String(SignatureOf(u, sign)), SignatureOf(u, sign), 4096, Base64)
      && Canonical(SignedJson(u, SignatureOf(u, sign))).Some?
      && |Encode64(Canonical(SignedJson(u, SignatureOf(u, sign))).value)| <= 12288
    ensures ParseUnsigned(input).Ok? ==> SigningPayload(ParseUnsigned(input).value).Ok?
    ensures ParseUnsigned(input).Err? ==> CreateEnvelope(input, sign) == Err(ParseUnsigned(input).error)
  {
    hide ParseUnsigned, Canonical, SignedJson, Encode64, ReadString, TextIs, SigningPayload, WellFormed, UnsignedValues,
      ValidUnsigned, Utf8.Encode, Ascii, UnsignedJson;
    if ParseUnsigned(input).Ok? {
      var u := ParseUnsigned(input).value;
      ParsedIsValid(input);
      ParsedWellFormed(input);
      PayloadExactly(u);
      var signature := SignatureOf(u, sign);
      ReadExactly(String(signature), signature, 4096, Base64, 0);
      assert ReadString(String(signature), 4096, Base64).Ok? ==>
        ReadString(String(signature), 4096, Base64) == Ok(signature) by {
        StringReadBack(signature, 4096, Base64);
      }
    }
  }

  lemma StringReadBack(t: Text, limit: nat, pattern: Pattern)
    ensures ReadString(String(t), limit, pattern).Ok? ==> ReadString(String(t), limit, pattern) == Ok(t)
  {
    hide SafeString;
  }
}
