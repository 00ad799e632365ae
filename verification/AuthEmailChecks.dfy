/** Exactly when the calls of the email service go on, and what they leave behind. */
module AuthEmailChecks {
  import opened Strings
  import opened Wrappers
  import opened AuthEmail

  /** Six decimal digits. */
  lemma OtpExactly(t: Text)
    ensures IsOtp(t) <==> |t| == 6 && forall c | c in t :: 0x30 <= c <= 0x39
  {
    if forall c | c in t :: 0x30 <= c <= 0x39 {
      forall i | 0 <= i < |t| ensures IsDigit(t[i]) {
        assert t[i] in t;
      }
    }
  }

  /** A challenge whose code may be checked now. */
  predicate Checkable(c: Challenge, now: int) {
    !c.consumed && !c.verifying && now < c.expiresAt
  }

  /** A challenge while its code is checked: one attempt more. */
  function Checking(c: Challenge): Challenge {
    Challenge(c.purpose, c.subjectHash, c.targetSubjectHash, c.principalId, c.expiresAt, c.otp, c.attempts + 1, true,
              c.consumed, c.delivered)
  }

  /** A comparison starts exactly for a well-formed code and a challenge that is neither spent, being checked,
      expired, nor out of attempts. */
  lemma VerifyBeginsExactly(st: Store, o: Options, id: Text, otp: Text, now: int)
    ensures
      var (next, r) := BeginVerify(st, o, id, otp, now);
      && (r.Ok? <==>
            IsOtp(otp) && id in st.challenges && Checkable(st.challenges[id], now)
              && st.challenges[id].attempts < o.maxAttempts)
      && (r.Ok? ==> next == st.(challenges := st.challenges[id := Checking(st.challenges[id])]))
      && (r.Err? ==> next == if r.error == OtpExpired || r.error == OtpAttemptsExceeded
                             then st.(challenges := st.challenges[id := st.challenges[id].(consumed := true)]) else st)
      && (r == Err(OtpExpired) <==>
            && IsOtp(otp) && id in st.challenges && !st.challenges[id].consumed && !st.challenges[id].verifying
            && now >= st.challenges[id].expiresAt)
      && (r == Err(OtpAttemptsExceeded) <==>
            && IsOtp(otp) && id in st.challenges && Checkable(st.challenges[id], now)
            && st.challenges[id].attempts >= o.maxAttempts)
  {
    hide IsOtp;
  }

  /** What a comparison leaves of its challenge: spent by the right code, and by the last wrong one. */
  lemma VerifyEndsExactly(st: Store, o: Options, id: Text, otp: Text, now: int, sessionId: Text)
    requires id in st.challenges
    ensures
      var (next, r, c) := (EndVerify(st, o, id, otp, now, sessionId).0, EndVerify(st, o, id, otp, now, sessionId).1,
        st.challenges[id]);
      && next.challenges == st.challenges[id :=
           c.(verifying := false, consumed := otp == c.otp || c.consumed || c.attempts >= o.maxAttempts)]
      && next.identities == st.identities && next.subjectIndex == st.subjectIndex && next.revoked == st.revoked
      && (r.Err? ==> next.sessions == st.sessions)
  {
    hide FindIdentity;
  }

  /** A registered session that was neither revoked nor has expired. */
  predicate SessionHolds(st: Store, sessionId: Text, now: int) {
    sessionId in st.sessions && sessionId !in st.revoked && now < st.sessions[sessionId].expiresAt
  }

  /** A change of address is checked exactly for a session in force, a well-formed code, and a challenge for a
      change, of the session's principal, that may be checked. */
  lemma ConfirmBeginsExactly(st: Store, sessionId: Text, id: Text, otp: Text, now: int)
    ensures
      var (next, r) := BeginConfirm(st, sessionId, id, otp, now);
      && (r.Ok? <==>
            && SessionHolds(st, sessionId, now) && IsOtp(otp) && id in st.challenges
            && st.challenges[id].purpose == EmailChange && Checkable(st.challenges[id], now)
            && st.challenges[id].principalId == Some(st.sessions[sessionId].principalId))
      && (r.Ok? ==>
            && r.value == st.sessions[sessionId].principalId
            && next == st.(challenges := st.challenges[id := Checking(st.challenges[id])]))
  {
    hide IsOtp;
  }

  /** Otherwise only a session or a challenge that has expired is marked so. */
  lemma ConfirmRefusedExactly(st: Store, sessionId: Text, id: Text, otp: Text, now: int)
    requires BeginConfirm(st, sessionId, id, otp, now).1.Err?
    ensures
      BeginConfirm(st, sessionId, id, otp, now).0 ==
      if sessionId in st.sessions && sessionId !in st.revoked && now >= st.sessions[sessionId].expiresAt then
        st.(revoked := st.revoked + {sessionId})
      else if
        && SessionHolds(st, sessionId, now) && IsOtp(otp) && id in st.challenges
          && st.challenges[id].purpose == EmailChange
        && st.challenges[id].principalId == Some(st.sessions[sessionId].principalId)
        && !st.challenges[id].consumed && !st.challenges[id].verifying
      then st.(challenges := st.challenges[id := st.challenges[id].(consumed := true)])
      else st
  {
    hide IsOtp;
  }

  /** The first identity of a principal. */
  predicate FirstOf(identities: seq<Identity>, principalId: Text, k: nat) {
    k < |identities| && identities[k].principalId == principalId && forall j | 0 <= j < k ::
      identities[j].principalId != principalId
  }

  lemma {:induction false} FindPrincipalExactly(identities: seq<Identity>, principalId: Text, k: nat)
    ensures FindPrincipal(identities, principalId) == Some(k) <==> FirstOf(identities, principalId, k)
  {
    if |identities| > 0 {
      forall j | 0 <= j < |identities[1..]| ensures identities[1..][j] == identities[j + 1] {}
      if identities[0].principalId != principalId && k > 0 {
        FindPrincipalExactly(identities[1..], principalId, k - 1);
      }
    }
  }

  /** A change takes effect exactly for the right code of a delivered challenge with a new address, for a
      principal with an identity. */
  lemma ConfirmEndsExactly(st: Store, o: Options, principalId: Text, id: Text, otp: Text)
    requires id in st.challenges
    ensures EndConfirm(st, o, principalId, id, otp).1.Ok? <==>
      && otp == st.challenges[id].otp && st.challenges[id].delivered && st.challenges[id].targetSubjectHash.Some?
      && exists k: nat :: FirstOf(st.identities, principalId, k)
    ensures EndConfirm(st, o, principalId, id, otp).1.Err? ==>
      var c := st.challenges[id];
      EndConfirm(st, o, principalId, id, otp).0 == st.(challenges := st.challenges[id :=
        if otp == c.otp then c.(consumed := true)
        else c.(verifying := false, consumed := c.consumed || c.attempts >= o.maxAttempts)])
  {
    hide FindPrincipal, Moved;
    if FindPrincipal(st.identities, principalId).Some? {
      FindPrincipalExactly(st.identities, principalId, FindPrincipal(st.identities, principalId).value);
    }
    if k: nat :| FirstOf(st.identities, principalId, k) {
      FindPrincipalExactly(st.identities, principalId, k);
    }
  }

  /** Then the first identity of the principal moves: the index forgets its old address and learns the new one,
      and every session of the principal ends. */
  lemma ConfirmEffect(st: Store, o: Options, principalId: Text, id: Text, otp: Text, k: nat)
    requires id in st.challenges && EndConfirm(st, o, principalId, id, otp).1.Ok?
      && FirstOf(st.identities, principalId, k)
    ensures
      var (next, was, hash) :=
        (EndConfirm(st, o, principalId, id, otp).0, st.identities[k], st.challenges[id].targetSubjectHash.value);
      && next.identities == st.identities[k := Identity(was.identityId, was.principalId, hash)]
      && (forall h :: h in next.subjectIndex <==> h == hash || (h in st.subjectIndex && h != was.subjectHash))
      && (forall h | h in next.subjectIndex :: next.subjectIndex[h] == if h == hash then was.identityId
        else st.subjectIndex[h])
      && (forall s :: s in next.revoked <==>
            s in st.revoked || (s in st.sessions && st.sessions[s].principalId == principalId))
      && next.sessions == st.sessions
      && next.challenges == st.challenges[id := st.challenges[id].(consumed := true)]
  {
    hide FindPrincipal;
    FindPrincipalExactly(st.identities, principalId, k);
  }

  /** An ended session confirms nothing any more. */
  lemma EndedSessionIsUseless(st: Store, o: Options, principalId: Text, id: Text, otp: Text, sessionId: Text,
                              other: Text, code: Text, now: int)
    requires id in st.challenges && EndConfirm(st, o, principalId, id, otp).1.Ok?
    requires sessionId in st.sessions && st.sessions[sessionId].principalId == principalId
    ensures BeginConfirm(EndConfirm(st, o, principalId, id, otp).0, sessionId, other, code, now).1
      == Err(SessionRevoked)
  {
    hide IsOtp, FindPrincipal;
  }

  lemma {:induction false} FindIdentityExactly(identities: seq<Identity>, identityId: Text)
    ensures
      var r := FindIdentity(identities, identityId);
      && (r.None? <==> forall i | i in identities :: i.identityId != identityId)
      && (r.Some? ==> r.value in identities && r.value.identityId == identityId)
  {
    if |identities| > 0 {
      FindIdentityExactly(identities[1..], identityId);
    }
  }

  /** An identity is registered exactly under a free address and a free id. */
  lemma RegisterExactly(st: Store, i: Identity)
    ensures
      var free := i.subjectHash !in st.subjectIndex && forall j | j in st.identities :: j.identityId != i.identityId;
      Registered(st, i) == if free
        then st.(identities := st.identities + [i], subjectIndex := st.subjectIndex[i.subjectHash := i.identityId])
          else st
  {
    hide FindIdentity;
    FindIdentityExactly(st.identities, i.identityId);
  }

  /** Every comparison that begins and every success is put on record, and nothing else is. */
  lemma RecordsExactly(st: State, o: Options, call: nat, id: Text, otp: Text, now: int, sessionId: Text)
    ensures
      var next := Step(st, o, StartVerify(call, id, otp, now));
      && next.successes == st.successes
      && next.comparisons == if call !in st.pending && BeginVerify(st.store, o, id, otp, now).1.Ok?
                             then st.comparisons + [id] else st.comparisons
    ensures call in st.pending && st.pending[call].Verifying? && st.pending[call].challenge in st.store.challenges ==>
      var (next, p) := (Step(st, o, FinishVerify(call, sessionId)), st.pending[call]);
      && next.comparisons == st.comparisons
      && next.successes == if EndVerify(st.store, o, p.challenge, p.otp, p.now, sessionId).1.Ok?
                           then st.successes + [p.challenge] else st.successes
    ensures call in st.pending && st.pending[call].Confirming? && st.pending[call].challenge in st.store.challenges ==>
      var (next, p) := (Step(st, o, FinishConfirm(call)), st.pending[call]);
      && next.comparisons == st.comparisons
      && next.successes == if EndConfirm(st.store, o, p.principalId, p.challenge, p.otp).1.Ok?
                           then st.successes + [p.challenge] else st.successes
  {
    hide BeginVerify, EndVerify, EndConfirm;
  }
}
