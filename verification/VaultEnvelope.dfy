/**
 Encrypted vault envelopes under ideal cryptography: a sealed text opens with its own key, nonce and
 associated data and with nothing else, and derived keys differ unless everything they come from agrees.
 */
module VaultEnvelope {
  import opened Strings
  import opened Wrappers
  import opened Json
  import opened JsonRoundTrip
  import opened CanonicalForm
  import opened CanonicalText
  import opened Base64Url
  import Utf8

  // ---------------------------------------------------------------- JSON bytes

  /** UTF-8 of JSON.stringify of a value with no undefined part. */
  function JsonBytes(v: Json): seq<int> {
    Utf8.Encode(Print(v))
  }

  /** JSON.parse of decoded bytes. */
  function FromJsonBytes(bs: seq<int>, rounding: Rounding): Option<Json> {
    var text :- Utf8.Decode(bs);
    Parse(text, Unbounded, rounding)
  }

  /** Serialising loses nothing. */
  lemma JsonBytesRoundTrip(v: Json, rounding: Rounding)
    requires Clean(v)
    ensures FromJsonBytes(JsonBytes(v), rounding) == Some(v)
    ensures Utf8.Bytes(JsonBytes(v)) && |JsonBytes(v)| > 0
  {
    hide Clean, Print, Utf8.Encode, Utf8.DecodeUnits, ParseValue, SkipSpace;
    var text := Print(v);
    PrintEncodable(v);
    PrintHead(v);
    Utf8.EncodeRoundTrip(text);
    Utf8.RepairedIsSame(text);
    assert !IsSpace(text[0]) && IsSpace(0xfeff);
    assert Utf8.Decode(JsonBytes(v)) == Some(text);
    assert text + [] == text;
    UnboundedFits(v, 0);
    ValueRoundTrip(v, [], 0, Unbounded, rounding);
    NothingToSkip();
  }

  lemma NothingToSkip()
    ensures SkipSpace([]) == []
  {}

  /** Different values have different bytes, even in base64url. */
  lemma JsonBytesInjective(v: Json, w: Json)
    requires Clean(v) && Clean(w)
    ensures EncodeBytes(JsonBytes(v)) == EncodeBytes(JsonBytes(w)) <==> v == w
  {
    hide Clean, JsonBytes, FromJsonBytes;
    var rounding: Rounding := _ => None;
    JsonBytesRoundTrip(v, rounding);
    JsonBytesRoundTrip(w, rounding);
    EncodeBytesInjective(JsonBytes(v), JsonBytes(w));
  }

  // ----------------------------------------------------------------- envelopes

  datatype Strategy = Prf | Phrase

  datatype Secret = PrfOutput(bytes: seq<int>) | Passphrase(text: Text)

  /** `salt`, `dek` and the nonces come from the random source. */
  datatype Random = Random(salt: seq<int>, dek: seq<int>, wrappedIv: seq<int>, payloadIv: seq<int>)

  datatype Options = Options(
    strategy: Strategy, prfOutput: Option<seq<int>>, passphrase: Option<Text>, iterations: Option<int>, random: Random)

  datatype AesKey =
    | Derived(strategy: Strategy, material: seq<int>, salt: seq<int>, iterations: int)
    | Raw(bytes: seq<int>)

  datatype Sealed<T> = Sealed(key: AesKey, iv: seq<int>, plain: T, aad: Option<seq<int>>)

  /** `aad` is the base64url text stored beside the ciphertext. */
  datatype Envelope<T> = Envelope(
    version: int, aesGcm: bool, strategy: Strategy, salt: seq<int>, iterations: Option<int>,
    wrappedIv: seq<int>, wrapped: Sealed<seq<int>>, payloadIv: seq<int>, payload: Sealed<T>, aad: Option<Text>)

  const VERSION := 1
  const MIN_ITERATIONS := 100000
  const MAX_ITERATIONS := 2000000

  function BoundedIterations(iterations: Option<int>): Option<int> {
    var n := if iterations.Some? then iterations.value else MIN_ITERATIONS;
    if MIN_ITERATIONS <= n <= MAX_ITERATIONS && IsSafeInteger(n) then Some(n) else None
  }

  function DeriveWrappingKey(strategy: Strategy, secret: Secret, salt: seq<int>, iterations: int): Option<AesKey> {
    match (strategy, secret)
    case (Prf, PrfOutput(bytes)) => if |bytes| < 32 then None else Some(Derived(Prf, bytes, salt, 0))
    case (Phrase, Passphrase(text)) => if |text| < 12 then None
      else Some(Derived(Phrase, Utf8.Encode(text), salt, iterations))
    case _ => None
  }

  predicate RandomOk(r: Random) {
    |r.salt| == 16 && |r.dek| == 32 && |r.wrappedIv| == 12 && |r.payloadIv| == 12
  }

  /** The secret the options name, when the strategy's own field is there and not empty. */
  function SecretOf(o: Options): Option<Secret> {
    match o.strategy
    case Prf => if o.prfOutput.Some? then Some(PrfOutput(o.prfOutput.value)) else None
    case Phrase => if o.passphrase.Some? && |o.passphrase.value| > 0 then Some(Passphrase(o.passphrase.value)) else None
  }

  function Rounds(o: Options): Option<int> {
    if o.strategy == Phrase then BoundedIterations(o.iterations) else Some(0)
  }

  /** `createVaultEnvelope`: None where it throws. */
  function CreateEnvelope<T>(plain: T, o: Options, aad: seq<int>): Option<Envelope<T>> {
    var secret :- SecretOf(o);
    var iterations :- Rounds(o);
    if !RandomOk(o.random) then None
    else
      var key :- DeriveWrappingKey(o.strategy, secret, o.random.salt, iterations);
      var r := o.random;
      Some(Envelope(VERSION, true, o.strategy, r.salt, if o.strategy == Phrase then Some(iterations) else None,
                    r.wrappedIv, Sealed(key, r.wrappedIv, r.dek, None),
                    r.payloadIv, Sealed(Raw(r.dek), r.payloadIv, plain, Some(aad)), Some(EncodeBytes(aad))))
  }

  function Open<T>(s: Sealed<T>, key: AesKey, iv: seq<int>, aad: Option<seq<int>>): Option<T> {
    if s.key == key && s.iv == iv && s.aad == aad then Some(s.plain) else None
  }

  /** `envelope.aad ? unb64(envelope.aad) : undefined`; the outer None is an atob failure. */
  function AssociatedData<T>(e: Envelope<T>): Option<Option<seq<int>>> {
    if e.aad.None? || e.aad.value == [] then Some(None)
    else
      var bs :- DecodeBytes(e.aad.value);
      Some(Some(bs))
  }

  /** `openVaultEnvelope`: None where it throws. */
  function OpenEnvelope<T>(e: Envelope<T>, secret: Secret): Option<T> {
    if e.version != VERSION || !e.aesGcm then None
    else
      var iterations :- if e.strategy == Phrase then BoundedIterations(e.iterations) else Some(0);
      var key :- DeriveWrappingKey(e.strategy, secret, e.salt, iterations);
      var dek :- Open(e.wrapped, key, e.wrappedIv, None);
      if |dek| != 32 then None
      else
        var aad :- AssociatedData(e);
        Open(e.payload, Raw(dek), e.payloadIv, aad)
  }

  /** The secret is of the options' kind, long enough, and yields the same key material. */
  predicate Unlocks(o: Options, secret: Secret) {
    SecretOf(o).Some? &&
    match (secret, SecretOf(o).value)
    case (PrfOutput(a), PrfOutput(b)) => a == b
    case (Passphrase(a), Passphrase(b)) => |a| >= 12 && Utf8.Encode(a) == Utf8.Encode(b)
    case _ => false
  }

  /** An envelope opens with the secret it was made with, to exactly what was put in, and with no other. */
  lemma OpenCreated<T>(plain: T, o: Options, aad: seq<int>, secret: Secret)
    requires CreateEnvelope(plain, o, aad).Some? && Utf8.Bytes(aad) && |aad| > 0
    ensures OpenEnvelope(CreateEnvelope(plain, o, aad).value, secret) == if Unlocks(o, secret) then Some(plain)
      else None
  {
    hide Utf8.Encode, EncodeBytes, DecodeBytes;
    BytesRoundTrip(aad);
    EncodedShape(aad);
  }

  /** Whatever the fields around it say, a payload only opens to what was sealed, and only under the
      associated data it was sealed with. */
  lemma PayloadIsBound<T>(e: Envelope<T>, secret: Secret)
    requires OpenEnvelope(e, secret).Some?
    ensures OpenEnvelope(e, secret).value == e.payload.plain
    ensures AssociatedData(e) == Some(e.payload.aad)
  {
    hide AssociatedData, DeriveWrappingKey, BoundedIterations;
  }

  /** The text of associated data that is there and decodes stands for those bytes alone, when it is canonical. */
  lemma AssociatedDataOf<T>(e: Envelope<T>, aad: seq<int>)
    requires e.aad == Some(EncodeBytes(aad)) && Utf8.Bytes(aad) && |aad| > 0
    ensures AssociatedData(e) == Some(Some(aad))
  {
    hide EncodeBytes, DecodeBytes;
    BytesRoundTrip(aad);
    EncodedShape(aad);
  }
}
