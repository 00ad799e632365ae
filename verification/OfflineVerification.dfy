/** Verifying a scanned envelope without a network, and what a verified result stands for. */
module OfflineVerification {
  import opened Strings
  import opened Wrappers
  import opened Json
  import opened Base64Url
  import Records
  import Envelopes = OfflineEnvelope
  import Trust = TrustEvaluation
  import TrustSnapshot

  datatype Verdict =
    | Verified
    | Malformed(error: EnvelopeError)
    | SignatureUnavailable | SignatureInvalid
    | LifetimeExceeded | NotYetValid | EnvelopeExpired
    | CacheStale | CacheInvalid | TrustUnknown | StatusUnknown
    | TrustRejected | StatusRejected
    | ReplayDetected
    | ClockInvalid

  /** How the signature port answers for an envelope. */
  datatype Answer = Accepts | Refuses | Throws

  type Verifier = (Text, Text, Text, Text) -> Answer

  datatype Clock = Clock(now: int, skew: int, maxLifetime: int)

  predicate ValidClock(c: Clock) {
    && IsSafeInteger(c.now) && c.now >= 0
    && IsSafeInteger(c.skew) && c.skew >= 0
    && IsSafeInteger(c.maxLifetime) && c.maxLifetime > 0
  }

  /** `evaluateOfflineFreshness`: None when fresh. */
  function Staleness(u: Envelopes.Unsigned, c: Clock): (r: Option<Verdict>)
    ensures r != Some(Verified)
  {
    if u.expiresAt - u.issuedAt > c.maxLifetime then Some(LifetimeExceeded)
    else if u.issuedAt > c.now + c.skew then Some(NotYetValid)
    else if u.expiresAt <= c.now - c.skew then Some(EnvelopeExpired)
    else None
  }

  function Request(u: Envelopes.Unsigned): Trust.Request {
    Trust.Request(u.tenantId, u.jurisdiction, u.issuerId, u.schemaId, u.keyId, u.statusId, u.issuedAt)
  }

  /** The verdict for a decision that is not `verified`, as the code's substrings decide it. */
  function Mapped(d: Trust.Decision): Verdict {
    if d.kind == Trust.Indeterminate then
      if d.code == Trust.SnapshotStale then CacheStale
      else if d.code == Trust.StatusUnknown then StatusUnknown
      else if d.code == Trust.IssuerUnknown || d.code == Trust.SchemaUnknown || d.code == Trust.KeyUnknown then
        TrustUnknown
      else CacheInvalid
    else if d.code == Trust.CredentialSuspended || d.code == Trust.CredentialRevoked then StatusRejected
    else TrustRejected
  }

  const COLON := 0x3a

  function Token(u: Envelopes.Unsigned): Text {
    u.envelopeId + [COLON] + u.nonce
  }

  /** `verifyOfflineEnvelope` over the offline cache, with the replay boundary's set of spent tokens. */
  function Verify(text: Text, rounding: Rounding, verifier: Verifier, cached: Option<TrustSnapshot.Snapshot>, c: Clock,
                  spent: set<Text>): (set<Text>, Verdict)
  {
    match Envelopes.ParseEnvelope(text, rounding)
    case Err(error) => (spent, Malformed(error))
    case Ok(envelope) =>
      var u := envelope.unsigned;
      match Envelopes.SigningPayload(u)
      case Err(_) => (spent, SignatureUnavailable)
      case Ok(payload) =>
        match verifier(u.issuerId, u.keyId, payload, envelope.signature)
        case Throws => (spent, SignatureUnavailable)
        case Refuses => (spent, SignatureInvalid)
        case Accepts => Judge(u, cached, c, spent)
  }

  /** The judgement once the signature is accepted. */
  function Judge(u: Envelopes.Unsigned, cached: Option<TrustSnapshot.Snapshot>, c: Clock, spent: set<Text>):
    (set<Text>, Verdict)
  {
    if !ValidClock(c) then (spent, ClockInvalid)
    else if Staleness(u, c).Some? then (spent, Staleness(u, c).value)
    else
      var d := Trust.EvaluateOffline(cached, Request(u), c.now);
      if d.kind != Trust.Verified then (spent, Mapped(d))
      else if Token(u) in spent then (spent, ReplayDetected)
      else (spent + {Token(u)}, Verified)
  }

  // ---------------------------------------------------------------- meaning

  lemma ParsedUnsigned(text: Text, rounding: Rounding)
    ensures match Envelopes.ParseEnvelope(text, rounding)
      case Ok(envelope) =>
        Envelopes.ValidUnsigned(envelope.unsigned)
          && Envelopes.SafeString(envelope.signature, Envelopes.MAX_SIGNATURE_BYTES, Envelopes.Base64)
      case Err(_) => true
  {
    hide Decode64, Parse, Envelopes.ParseUnsigned, Envelopes.ValidUnsigned, Envelopes.SafeString;
    match Decode64(text)
    case Err(_) =>
    case Ok(source) =>
      match Parse(source, READER_LIMITS, rounding)
      case None =>
      case Some(v) => ReadSignedValid(v);
  }

  lemma ReadSignedValid(v: Json)
    ensures match Envelopes.ReadSigned(v)
      case Ok(envelope) =>
        Envelopes.ValidUnsigned(envelope.unsigned)
          && Envelopes.SafeString(envelope.signature, Envelopes.MAX_SIGNATURE_BYTES, Envelopes.Base64)
      case Err(_) => true
  {
    hide Envelopes.ParseUnsigned, Envelopes.ValidUnsigned, Envelopes.SafeString;
    if v.Object? {
      Envelopes.ParsedIsValid(Object(Records.Without(v.members, Ascii("signature"))));
    }
  }

  /** A verified result means: the envelope parsed, its signature was accepted over the rebuilt payload, it
      is within its lifetime, it was not seen before, and the online evaluator would verify the same
      credential on the same snapshot.  Nothing else is ever verified. */
  lemma VerifiedExactly(text: Text, rounding: Rounding, verifier: Verifier, cached: Option<TrustSnapshot.Snapshot>,
                        c: Clock, spent: set<Text>)
    ensures Verify(text, rounding, verifier, cached, c, spent).1 == Verified <==>
      && Envelopes.ParseEnvelope(text, rounding).Ok?
      && var u := Envelopes.ParseEnvelope(text, rounding).value.unsigned;
      && Envelopes.SigningPayload(u).Ok?
      && verifier(u.issuerId, u.keyId, Envelopes.SigningPayload(u).value,
        Envelopes.ParseEnvelope(text, rounding).value.signature) == Accepts
      && ValidClock(c) && Staleness(u, c).None?
      && cached.Some? && Trust.EvaluateCredential(cached.value, Request(u), c.now).kind == Trust.Verified
      && Token(u) !in spent
  {
    hide Envelopes.ParseEnvelope, Envelopes.SigningPayload, Trust.EvaluateOffline, Trust.EvaluateCredential, Staleness,
      Token;
    ParsedUnsigned(text, rounding);
    match Envelopes.ParseEnvelope(text, rounding)
    case Err(_) =>
    case Ok(envelope) =>
      ValidTime(envelope.unsigned);
      NothingCached(Request(envelope.unsigned), c.now);
      if cached.Some? {
        SameVerdict(cached.value, Request(envelope.unsigned), c.now);
      }
  }

  lemma ValidTime(u: Envelopes.Unsigned)
    requires Envelopes.ValidUnsigned(u)
    ensures IsSafeInteger(u.issuedAt)
  {
    hide Envelopes.SafeString;
  }

  lemma NothingCached(q: Trust.Request, now: int)
    ensures Trust.EvaluateOffline(None, q, now).kind == Trust.Indeterminate
  {}

  lemma SameVerdict(s: TrustSnapshot.Snapshot, q: Trust.Request, now: int)
    requires IsSafeInteger(q.issuedAt)
    ensures Trust.EvaluateOffline(Some(s), q, now).kind == Trust.Verified
      <==> Trust.EvaluateCredential(s, q, now).kind == Trust.Verified
  {
    hide Trust.EvaluateOffline, Trust.EvaluateCredential;
    Trust.SafeTimesAgree(s, q, now);
  }

  /** The clock is made of safe integers that are not negative, and its lifetime is positive. */
  predicate Usable(c: Clock) {
    c.now >= 0 && c.skew >= 0 && c.maxLifetime > 0 && IsSafeInteger(c.now) && IsSafeInteger(c.skew)
    && IsSafeInteger(c.maxLifetime)
  }

  /** Short enough, begun, and not over, the last two give or take the skew. */
  predicate InTime(u: Envelopes.Unsigned, c: Clock) {
    u.expiresAt - u.issuedAt <= c.maxLifetime && u.issuedAt - c.skew <= c.now && c.now < u.expiresAt + c.skew
  }

  /** What comes before the registry: the clock, and then the lifetime. */
  lemma TimesExactly(u: Envelopes.Unsigned, cached: Option<TrustSnapshot.Snapshot>, c: Clock, spent: set<Text>)
    ensures
      var v := Judge(u, cached, c, spent).1;
      && (v == ClockInvalid <==> !Usable(c))
      && (v == LifetimeExceeded <==> Usable(c) && u.expiresAt - u.issuedAt > c.maxLifetime)
      && (v == NotYetValid <==>
            Usable(c) && u.expiresAt - u.issuedAt <= c.maxLifetime && u.issuedAt - c.skew > c.now)
      && (v == EnvelopeExpired <==>
            && Usable(c) && u.expiresAt - u.issuedAt <= c.maxLifetime && u.issuedAt - c.skew <= c.now
            && c.now >= u.expiresAt + c.skew)
  {
    hide IsSafeInteger, Trust.EvaluateOffline;
  }

  /** What the registry's decision comes to. */
  lemma DecisionsExactly(u: Envelopes.Unsigned, cached: Option<TrustSnapshot.Snapshot>, c: Clock, spent: set<Text>)
    ensures
      var (v, fit) := (Judge(u, cached, c, spent).1, Usable(c) && InTime(u, c));
      var q := Trust.Request(u.tenantId, u.jurisdiction, u.issuerId, u.schemaId, u.keyId, u.statusId, u.issuedAt);
      var d := Trust.EvaluateOffline(cached, q, c.now);
      var (unclear, refused) := (fit && d.kind.Indeterminate?, fit && d.kind.Rejected?);
      && (v == CacheStale <==> unclear && d.code.SnapshotStale?)
      && (v == StatusUnknown <==> unclear && d.code.StatusUnknown?)
      && (v == TrustUnknown <==> unclear && (d.code.IssuerUnknown? || d.code.SchemaUnknown? || d.code.KeyUnknown?))
      && (v == CacheInvalid <==>
            && unclear && !d.code.SnapshotStale? && !d.code.StatusUnknown? && !d.code.IssuerUnknown?
            && !d.code.SchemaUnknown? && !d.code.KeyUnknown?)
      && (v == StatusRejected <==> refused && (d.code.CredentialSuspended? || d.code.CredentialRevoked?))
      && (v == TrustRejected <==> refused && !d.code.CredentialSuspended? && !d.code.CredentialRevoked?)
  {
    hide IsSafeInteger, Trust.EvaluateOffline;
  }

  /** A verified envelope spends the token of its id and nonce; a second one with that token is a replay. */
  lemma SpentExactly(u: Envelopes.Unsigned, cached: Option<TrustSnapshot.Snapshot>, c: Clock, spent: set<Text>)
    ensures
      var ((after, v), token) := (Judge(u, cached, c, spent), u.envelopeId + [0x3a] + u.nonce);
      var q := Trust.Request(u.tenantId, u.jurisdiction, u.issuerId, u.schemaId, u.keyId, u.statusId, u.issuedAt);
      var good := Usable(c) && InTime(u, c) && Trust.EvaluateOffline(cached, q, c.now).kind.Verified?;
      && (v == Verified <==> good && token !in spent)
      && (v == ReplayDetected <==> good && token in spent)
      && after == if v == Verified then spent + {token} else spent
  {
    hide IsSafeInteger, Trust.EvaluateOffline;
  }

  /** Only an envelope that parses, whose payload is rebuilt and whose signature is accepted, is judged. */
  lemma SignatureExactly(text: Text, rounding: Rounding, verifier: Verifier, cached: Option<TrustSnapshot.Snapshot>,
                         c: Clock, spent: set<Text>)
    ensures
      var (all, parsed) :=
        (Verify(text, rounding, verifier, cached, c, spent), Envelopes.ParseEnvelope(text, rounding));
      match parsed
      case Err(error) => all == (spent, Malformed(error))
      case Ok(envelope) =>
        var u := envelope.unsigned;
        var payload := Envelopes.SigningPayload(u);
        if payload.Err? || verifier(u.issuerId, u.keyId, payload.value, envelope.signature).Throws? then
          all == (spent, SignatureUnavailable)
        else if verifier(u.issuerId, u.keyId, payload.value, envelope.signature).Accepts? then
          all == Judge(u, cached, c, spent)
        else all == (spent, SignatureInvalid)
  {
    hide Envelopes.ParseEnvelope, Envelopes.SigningPayload, Judge;
  }

  // ----------------------------------------------------------------- replays

  function LastColon(t: Text): nat {
    if |t| == 0 || t[|t| - 1] == COLON then 0 else 1 + LastColon(t[..|t| - 1])
  }

  lemma {:induction false} LastColonOfJoin(a: Text, b: Text)
    requires COLON !in b
    ensures LastColon(a + [COLON] + b) == |b|
  {
    var t := a + [COLON] + b;
    if |b| > 0 {
      assert t[..|t| - 1] == a + [COLON] + b[..|b| - 1];
      assert t[|t| - 1] == b[|b| - 1];
      LastColonOfJoin(a, b[..|b| - 1]);
    }
  }

  lemma NonceHasNoColon(u: Envelopes.Unsigned)
    requires Envelopes.ValidUnsigned(u)
    ensures COLON !in u.nonce
  {
    hide Envelopes.IsAlphanumeric, Envelopes.IsIdentifierMark, HasControl;
    assert Envelopes.SafeString(u.nonce, 128, Envelopes.Nonce);
    assert AllSymbols(u.nonce);
    forall i | 0 <= i < |u.nonce| ensures u.nonce[i] != COLON {
      assert SymbolValue(u.nonce[i]).Some?;
    }
  }

  /** Tokens differ unless both envelope id and nonce agree. */
  lemma TokenInjective(u: Envelopes.Unsigned, w: Envelopes.Unsigned)
    requires Envelopes.ValidUnsigned(u) && Envelopes.ValidUnsigned(w)
    ensures Token(u) == Token(w) <==> u.envelopeId == w.envelopeId && u.nonce == w.nonce
  {
    hide Envelopes.ValidUnsigned;
    NonceHasNoColon(u);
    NonceHasNoColon(w);
    LastColonOfJoin(u.envelopeId, u.nonce);
    LastColonOfJoin(w.envelopeId, w.nonce);
    if Token(u) == Token(w) {
      assert |u.nonce| == |w.nonce|;
      assert Token(u)[|u.envelopeId| + 1..] == u.nonce && Token(w)[|w.envelopeId| + 1..] == w.nonce;
      assert Token(u)[..|u.envelopeId|] == u.envelopeId && Token(w)[..|w.envelopeId|] == w.envelopeId;
    }
  }

  datatype Scan = Scan(text: Text, verifier: Verifier, cached: Option<TrustSnapshot.Snapshot>, clock: Clock)

  function VerifyScan(s: Scan, rounding: Rounding, spent: set<Text>): (set<Text>, Verdict) {
    Verify(s.text, rounding, s.verifier, s.cached, s.clock, spent)
  }

  /** The envelopes verified in a run of scans, in order. */
  function VerifiedIn(scans: seq<Scan>, rounding: Rounding, spent: set<Text>): seq<Envelopes.Unsigned>
    decreases |scans|
  {
    if |scans| == 0 then []
    else
      var (next, verdict) := VerifyScan(scans[0], rounding, spent);
      (if verdict == Verified && Envelopes.ParseEnvelope(scans[0].text, rounding).Ok?
       then [Envelopes.ParseEnvelope(scans[0].text, rounding).value.unsigned] else [])
      + VerifiedIn(scans[1..], rounding, next)
  }

  lemma VerifiedSpends(s: Scan, rounding: Rounding, spent: set<Text>)
    ensures spent <= VerifyScan(s, rounding, spent).0
    ensures VerifyScan(s, rounding, spent).1 == Verified ==>
      && Envelopes.ParseEnvelope(s.text, rounding).Ok?
      && var u := Envelopes.ParseEnvelope(s.text, rounding).value.unsigned;
      && Envelopes.ValidUnsigned(u) && Token(u) !in spent && Token(u) in VerifyScan(s, rounding, spent).0
  {
    hide Envelopes.ParseEnvelope, Envelopes.SigningPayload, Trust.EvaluateOffline, Staleness, Token,
      Envelopes.ValidUnsigned;
    ParsedUnsigned(s.text, rounding);
  }

  lemma {:induction false} VerifiedAreNew(scans: seq<Scan>, rounding: Rounding, spent: set<Text>)
    ensures forall u | u in VerifiedIn(scans, rounding, spent) :: Token(u) !in spent && Envelopes.ValidUnsigned(u)
    decreases |scans|
  {
    hide VerifyScan, Token, Envelopes.ParseEnvelope, Envelopes.ValidUnsigned;
    if |scans| > 0 {
      VerifiedSpends(scans[0], rounding, spent);
      VerifiedAreNew(scans[1..], rounding, VerifyScan(scans[0], rounding, spent).0);
    }
  }

  /** In any run of scans that share a replay boundary, whatever the clocks and snapshots, no envelope id
      and nonce are verified twice. */
  lemma {:induction false} NoReplay(scans: seq<Scan>, rounding: Rounding, spent: set<Text>, i: nat, j: nat)
    requires i < j < |VerifiedIn(scans, rounding, spent)|
    ensures
      var u, w := VerifiedIn(scans, rounding, spent)[i], VerifiedIn(scans, rounding, spent)[j];
      !(u.envelopeId == w.envelopeId && u.nonce == w.nonce)
    decreases |scans|
  {
    hide VerifyScan, Token, Envelopes.ParseEnvelope, Envelopes.ValidUnsigned;
    var (next, verdict) := VerifyScan(scans[0], rounding, spent);
    var rest := VerifiedIn(scans[1..], rounding, next);
    VerifiedSpends(scans[0], rounding, spent);
    if verdict == Verified {
      if i > 0 {
        NoReplay(scans[1..], rounding, next, i - 1, j - 1);
      } else {
        VerifiedAreNew(scans[1..], rounding, next);
        assert rest[j - 1] in rest;
        TokenInjective(VerifiedIn(scans, rounding, spent)[0], rest[j - 1]);
      }
    } else {
      NoReplay(scans[1..], rounding, next, i, j);
    }
  }
}
