/**
 One-time codes by email.  Checking a code waits for its hash, so `verifyOtp` and
 `confirmEmailChange` are each two steps, before and after that wait, and interleave freely.

 Salted hashes are ideal: they agree only for equal codes.  Challenge and session ids are fresh.
 */
module AuthEmail {
  import opened Strings
  import opened Wrappers

  datatype Purpose = Login | Recovery | EmailChange

  datatype Challenge = Challenge(
    purpose: Purpose, subjectHash: Text, targetSubjectHash: Option<Text>, principalId: Option<Text>, expiresAt: int,
    otp: Text, attempts: nat, verifying: bool, consumed: bool, delivered: bool)

  datatype Identity = Identity(identityId: Text, principalId: Text, subjectHash: Text)

  datatype Session = Session(principalId: Text, expiresAt: int)

  datatype Error =
    | InvalidOtp | ChallengeNotFound | OtpReplayed | OtpExpired | OtpAttemptsExceeded | DeliveryFailed
    | IdentityNotFound
    | SessionNotFound | SessionRevoked | SessionExpired

  /** `identities` are in insertion order. */
  datatype Store = Store(
    identities: seq<Identity>, subjectIndex: map<Text, Text>, challenges: map<Text, Challenge>,
    sessions: map<Text, Session>, revoked: set<Text>)

  datatype Options = Options(maxAttempts: int, sessionTtl: int)

  predicate ValidOptions(o: Options) {
    o.maxAttempts >= 1 && o.sessionTtl >= 1
  }

  predicate IsOtp(t: Text) {
    |t| == 6 && forall i | 0 <= i < 6 :: IsDigit(t[i])
  }

  function WithChallenge(st: Store, id: Text, c: Challenge): Store {
    st.(challenges := st.challenges[id := c])
  }

  function FindIdentity(identities: seq<Identity>, identityId: Text): Option<Identity> {
    if |identities| == 0 then None
    else if identities[0].identityId == identityId then Some(identities[0])
    else FindIdentity(identities[1..], identityId)
  }

  /** The position of the first identity of a principal. */
  function FindPrincipal(identities: seq<Identity>, principalId: Text): (r: Option<nat>)
    ensures r.Some? ==> r.value < |identities| && identities[r.value].principalId == principalId
  {
    if |identities| == 0 then None
    else if identities[0].principalId == principalId then Some(0)
    else
      var k :- FindPrincipal(identities[1..], principalId);
      Some(k + 1)
  }

  function IdentityForHash(st: Store, hash: Text): Option<Identity> {
    if hash in st.subjectIndex then FindIdentity(st.identities, st.subjectIndex[hash]) else None
  }

  /** `requireSession`: an expired session is revoked as it is refused. */
  function RequireSession(st: Store, sessionId: Text, now: int): (Store, Result<Session, Error>) {
    if sessionId !in st.sessions then (st, Err(SessionNotFound))
    else if sessionId in st.revoked then (st, Err(SessionRevoked))
    else if now >= st.sessions[sessionId].expiresAt then (st.(revoked := st.revoked + {sessionId}), Err(SessionExpired))
    else (st, Ok(st.sessions[sessionId]))
  }

  // ------------------------------------------------------------ the four halves

  /** `verifyOtp` up to the hash; Ok means that a comparison is under way. */
  function BeginVerify(st: Store, o: Options, id: Text, otp: Text, now: int): (Store, Result<(), Error>) {
    if !IsOtp(otp) then (st, Err(InvalidOtp))
    else if id !in st.challenges then (st, Err(ChallengeNotFound))
    else
      var c := st.challenges[id];
      if c.consumed || c.verifying then (st, Err(OtpReplayed))
      else if now >= c.expiresAt then (WithChallenge(st, id, c.(consumed := true)), Err(OtpExpired))
      else if c.attempts >= o.maxAttempts then (WithChallenge(st, id, c.(consumed := true)), Err(OtpAttemptsExceeded))
      else (WithChallenge(st, id, c.(attempts := c.attempts + 1, verifying := true)), Ok(()))
  }

  /** A wrong code: the challenge is free again, or spent with its last attempt. */
  function Missed(c: Challenge, o: Options): Challenge {
    c.(verifying := false, consumed := c.consumed || c.attempts >= o.maxAttempts)
  }

  /** `verifyOtp` from the hash on; Ok mints the session. */
  function EndVerify(st: Store, o: Options, id: Text, otp: Text, now: int, sessionId: Text):
    (Store, Result<Text, Error>)
    requires id in st.challenges
  {
    var c := st.challenges[id];
    if otp != c.otp then (WithChallenge(st, id, Missed(c, o)), Err(InvalidOtp))
    else
      var st1 := WithChallenge(st, id, c.(consumed := true, verifying := false));
      if !c.delivered then (st1, Err(DeliveryFailed))
      else
        var identity := IdentityForHash(st1, c.subjectHash);
        if identity.None? then (st1, Err(IdentityNotFound))
        else if c.purpose == EmailChange then (st1, Err(InvalidOtp))
        else (st1.(sessions := st1.sessions[sessionId := Session(identity.value.principalId, now + o.sessionTtl)]),
          Ok(sessionId))
  }

  /** `confirmEmailChange` up to the hash; Ok returns the session's principal. */
  function BeginConfirm(st: Store, sessionId: Text, id: Text, otp: Text, now: int): (Store, Result<Text, Error>) {
    var (st1, session) := RequireSession(st, sessionId, now);
    if session.Err? then (st1, Err(session.error))
    else if !IsOtp(otp) then (st1, Err(InvalidOtp))
    else if id !in st1.challenges || st1.challenges[id].purpose != EmailChange then (st1, Err(ChallengeNotFound))
    else
      var c := st1.challenges[id];
      if c.principalId != Some(session.value.principalId) || c.consumed || c.verifying then (st1, Err(InvalidOtp))
      else if now >= c.expiresAt then (WithChallenge(st1, id, c.(consumed := true)), Err(OtpExpired))
      else (WithChallenge(st1, id, c.(attempts := c.attempts + 1, verifying := true)), Ok(session.value.principalId))
  }

  /** The sessions of a principal. */
  function SessionsOf(st: Store, principalId: Text): set<Text> {
    set s | s in st.sessions && st.sessions[s].principalId == principalId
  }

  /** The identity at position k moves to a new address; all its principal's sessions end. */
  function Moved(st: Store, k: nat, target: Text): Store
    requires k < |st.identities|
  {
    var identity := st.identities[k];
    st.(identities := st.identities[k := identity.(subjectHash := target)],
        subjectIndex := (st.subjectIndex - {identity.subjectHash})[target := identity.identityId],
        revoked := st.revoked + SessionsOf(st, identity.principalId))
  }

  /** `confirmEmailChange` from the hash on; Ok is a changed address. */
  function EndConfirm(st: Store, o: Options, principalId: Text, id: Text, otp: Text): (Store, Result<Text, Error>)
    requires id in st.challenges
  {
    var c := st.challenges[id];
    if otp != c.otp then (WithChallenge(st, id, Missed(c, o)), Err(InvalidOtp))
    else
      var st1 := WithChallenge(st, id, c.(consumed := true));
      if !c.delivered || c.targetSubjectHash.None? then (st1, Err(DeliveryFailed))
      else
        match FindPrincipal(st1.identities, principalId)
        case None => (st1, Err(IdentityNotFound))
        case Some(k) => (Moved(st1, k, c.targetSubjectHash.value), Ok(st1.identities[k].identityId))
  }

  // ------------------------------------------------------------ interleavings

  datatype Pending =
    | Verifying(challenge: Text, otp: Text, now: int)
    | Confirming(challenge: Text, otp: Text, principalId: Text)

  /** `comparisons` and `successes` list the challenges of every comparison begun and every success. */
  datatype State = State(store: Store, pending: map<nat, Pending>, comparisons: seq<Text>, successes: seq<Text>)

  datatype Event =
    | Register(identity: Identity)
    | Issue(id: Text, challenge: Challenge)
    | Deliver(id: Text)
    | SetTarget(id: Text, target: Text, principalId: Text)
    | StartVerify(call: nat, id: Text, otp: Text, now: int)
    | FinishVerify(call: nat, sessionId: Text)
    | StartConfirm(call: nat, sessionId: Text, id: Text, otp: Text, now: int)
    | FinishConfirm(call: nat)

  function Registered(st: Store, i: Identity): Store {
    if i.subjectHash in st.subjectIndex || FindIdentity(st.identities, i.identityId).Some? then st
    else st.(identities := st.identities + [i], subjectIndex := st.subjectIndex[i.subjectHash := i.identityId])
  }

  function Step(st: State, o: Options, e: Event): State {
    match e
    case Register(i) => st.(store := Registered(st.store, i))
    case Issue(id, c) =>
      if id in st.store.challenges then st
      else st.(store := WithChallenge(st.store, id,
        c.(attempts := 0, verifying := false, consumed := false, delivered := false)))
    case Deliver(id) =>
      if id !in st.store.challenges then st
      else st.(store := WithChallenge(st.store, id, st.store.challenges[id].(delivered := true)))
    case SetTarget(id, target, principalId) =>
      if id !in st.store.challenges then st
      else st.(store := WithChallenge(st.store, id,
        st.store.challenges[id].(targetSubjectHash := Some(target), principalId := Some(principalId))))
    case StartVerify(call, id, otp, now) =>
      if call in st.pending then st else Started(st, BeginVerify(st.store, o, id, otp, now).0,
        BeginVerify(st.store, o, id, otp, now).1.Ok?, call, Verifying(id, otp, now))
    case StartConfirm(call, sessionId, id, otp, now) =>
      if call in st.pending then st
      else
        var (store, r) := BeginConfirm(st.store, sessionId, id, otp, now);
        Started(st, store, r.Ok?, call, Confirming(id, otp, if r.Ok? then r.value else []))
    case FinishVerify(call, sessionId) =>
      if call !in st.pending || !st.pending[call].Verifying? || st.pending[call].challenge !in st.store.challenges then
        st
      else
        var p := st.pending[call];
        var (store, r) := EndVerify(st.store, o, p.challenge, p.otp, p.now, sessionId);
        Ended(st, store, r.Ok?, call, p.challenge)
    case FinishConfirm(call) =>
      if call !in st.pending || !st.pending[call].Confirming?
         || st.pending[call].challenge !in st.store.challenges then st
      else
        var p := st.pending[call];
        var (store, r) := EndConfirm(st.store, o, p.principalId, p.challenge, p.otp);
        Ended(st, store, r.Ok?, call, p.challenge)
  }

  function Started(st: State, store: Store, ok: bool, call: nat, p: Pending): State {
    if ok then State(store, st.pending[call := p], st.comparisons + [p.challenge], st.successes)
       else st.(store := store)
  }

  function Ended(st: State, store: Store, ok: bool, call: nat, id: Text): State {
    State(store, st.pending - {call}, st.comparisons, if ok then st.successes + [id] else st.successes)
  }

  function Init(): State {
    State(Store([], map[], map[], map[], {}), map[], [], [])
  }

  function Run(st: State, o: Options, events: seq<Event>): State
    decreases |events|
  {
    if |events| == 0 then st else Run(Step(st, o, events[0]), o, events[1..])
  }

  // --------------------------------------------------------------- the class

  class EmailOtpAuthService {
    var identities: seq<Identity>
    var subjectIndex: map<Text, Text>
    var challenges: map<Text, Challenge>
    var sessions: map<Text, Session>
    var revokedSessions: set<Text>
    const options: Options

    function Contents(): Store
      reads this
    {
      Store(identities, subjectIndex, challenges, sessions, revokedSessions)
    }

    constructor (o: Options)
      requires ValidOptions(o)
      ensures Contents() == Init().store && options == o
    {
      identities, subjectIndex, challenges, sessions, revokedSessions := [], map[], map[], map[], {};
      options := o;
    }

    method VerifyBegins(id: Text, otp: Text, now: int) returns (r: Result<(), Error>)
      modifies this`challenges
      ensures (Contents(), r) == BeginVerify(old(Contents()), options, id, otp, now)
    {
      if !IsOtp(otp) {
        return Err(InvalidOtp);
      }
      if id !in challenges {
        return Err(ChallengeNotFound);
      }
      var record := challenges[id];
      if record.consumed || record.verifying {
        return Err(OtpReplayed);
      }
      if now >= record.expiresAt {
        challenges := challenges[id := record.(consumed := true)];
        return Err(OtpExpired);
      }
      if record.attempts >= options.maxAttempts {
        challenges := challenges[id := record.(consumed := true)];
        return Err(OtpAttemptsExceeded);
      }
      challenges := challenges[id := record.(attempts := record.attempts + 1, verifying := true)];
      r := Ok(());
    }

    method VerifyEnds(id: Text, otp: Text, now: int, sessionId: Text) returns (r: Result<Text, Error>)
      requires id in challenges
      modifies this`challenges, this`sessions
      ensures (Contents(), r) == EndVerify(old(Contents()), options, id, otp, now, sessionId)
    {
      var record := challenges[id];
      if otp != record.otp {
        record := record.(verifying := false);
        if record.attempts >= options.maxAttempts {
          record := record.(consumed := true);
        }
        challenges := challenges[id := record];
        return Err(InvalidOtp);
      }
      challenges := challenges[id := record.(consumed := true, verifying := false)];
      if !record.delivered {
        return Err(DeliveryFailed);
      }
      if record.subjectHash !in subjectIndex {
        return Err(IdentityNotFound);
      }
      var identity := FindIdentity(identities, subjectIndex[record.subjectHash]);
      if identity.None? {
        return Err(IdentityNotFound);
      }
      if record.purpose == EmailChange {
        return Err(InvalidOtp);
      }
      sessions := sessions[sessionId := Session(identity.value.principalId, now + options.sessionTtl)];
      r := Ok(sessionId);
    }

    method ConfirmBegins(sessionId: Text, id: Text, otp: Text, now: int) returns (r: Result<Text, Error>)
      modifies this`challenges, this`revokedSessions
      ensures (Contents(), r) == BeginConfirm(old(Contents()), sessionId, id, otp, now)
    {
      if sessionId !in sessions {
        return Err(SessionNotFound);
      }
      if sessionId in revokedSessions {
        return Err(SessionRevoked);
      }
      var session := sessions[sessionId];
      if now >= session.expiresAt {
        revokedSessions := revokedSessions + {sessionId};
        return Err(SessionExpired);
      }
      if !IsOtp(otp) {
        return Err(InvalidOtp);
      }
      if id !in challenges || challenges[id].purpose != EmailChange {
        return Err(ChallengeNotFound);
      }
      var record := challenges[id];
      if record.principalId != Some(session.principalId) || record.consumed || record.verifying {
        return Err(InvalidOtp);
      }
      if now >= record.expiresAt {
        challenges := challenges[id := record.(consumed := true)];
        return Err(OtpExpired);
      }
      challenges := challenges[id := record.(attempts := record.attempts + 1, verifying := true)];
      r := Ok(session.principalId);
    }

    method ConfirmEnds(principalId: Text, id: Text, otp: Text) returns (r: Result<Text, Error>)
      requires id in challenges
      modifies this`challenges, this`identities, this`subjectIndex, this`revokedSessions
      ensures (Contents(), r) == EndConfirm(old(Contents()), options, principalId, id, otp)
    {
      var record := challenges[id];
      if otp != record.otp {
        record := record.(verifying := false);
        if record.attempts >= options.maxAttempts {
          record := record.(consumed := true);
        }
        challenges := challenges[id := record];
        return Err(InvalidOtp);
      }
      challenges := challenges[id := record.(consumed := true)];
      if !record.delivered || record.targetSubjectHash.None? {
        return Err(DeliveryFailed);
      }
      var k := FindPrincipal(identities, principalId);
      if k.None? {
        return Err(IdentityNotFound);
      }
      var identity, target := identities[k.value], record.targetSubjectHash.value;
      subjectIndex := subjectIndex - {identity.subjectHash};
      identities := identities[k.value := identity.(subjectHash := target)];
      subjectIndex := subjectIndex[target := identity.identityId];
      revokedSessions := revokedSessions + set s | s in sessions && sessions[s].principalId == principalId;
      r := Ok(identity.identityId);
    }
  }
}
