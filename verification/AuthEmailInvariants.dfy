/** Every interleaving of code checks keeps one comparison in flight, a bounded number in all, and one success. */
module AuthEmailInvariants {
  import opened Strings
  import opened Wrappers
  import opened AuthEmail

  function Times(log: seq<Text>, id: Text): nat {
    multiset(log)[id]
  }

  /** The challenge's counters tell the history of its comparisons. */
  predicate ChallengeOk(st: State, o: Options, id: Text) {
    if id !in st.store.challenges then Times(st.comparisons, id) == 0 && Times(st.successes, id) == 0
    else
      var c := st.store.challenges[id];
      && Times(st.comparisons, id) == c.attempts <= o.maxAttempts
      && (!c.consumed && !c.verifying ==> c.attempts < o.maxAttempts)
      && Times(st.successes, id) <= 1
      && (Times(st.successes, id) == 1 ==> c.consumed)
  }

  /** A comparison in flight holds its challenge. */
  predicate PendingOk(st: State, p: Pending) {
    && p.challenge in st.store.challenges
    && st.store.challenges[p.challenge].verifying && !st.store.challenges[p.challenge].consumed
  }

  predicate Apart(p: Pending, q: Pending) {
    p.challenge != q.challenge
  }

  ghost predicate Inv(st: State, o: Options) {
    && (forall id :: ChallengeOk(st, o, id))
    && (forall c | c in st.pending :: PendingOk(st, st.pending[c]))
    && (forall c, d | c in st.pending && d in st.pending && c != d :: Apart(st.pending[c], st.pending[d]))
  }

  /** The flags and counters of two challenges agree. */
  predicate SameProgress(c: Challenge, d: Challenge) {
    c.attempts == d.attempts && c.verifying == d.verifying && c.consumed == d.consumed
  }

  ghost predicate SameChallenges(a: Store, b: Store) {
    a.challenges.Keys == b.challenges.Keys && forall id | id in a.challenges ::
      SameProgress(a.challenges[id], b.challenges[id])
  }

  lemma StoreKeeps(st: State, o: Options, store: Store)
    requires Inv(st, o) && SameChallenges(st.store, store)
    ensures Inv(st.(store := store), o)
  {
    hide Times;
    var next := st.(store := store);
    forall id ensures ChallengeOk(next, o, id) {
      assert ChallengeOk(st, o, id);
    }
    forall c | c in next.pending ensures PendingOk(next, next.pending[c]) {
      assert PendingOk(st, st.pending[c]);
    }
  }

  lemma NewChallengeKeeps(st: State, o: Options, id: Text, c: Challenge)
    requires Inv(st, o) && ValidOptions(o) && id !in st.store.challenges
    requires c.attempts == 0 && !c.verifying && !c.consumed
    ensures Inv(st.(store := WithChallenge(st.store, id, c)), o)
  {
    hide Times;
    var next := st.(store := WithChallenge(st.store, id, c));
    forall k ensures ChallengeOk(next, o, k) {
      assert ChallengeOk(st, o, k);
    }
    forall k | k in next.pending ensures PendingOk(next, next.pending[k]) {
      assert PendingOk(st, st.pending[k]);
    }
  }

  /** A challenge nobody is checking may be spent. */
  lemma SpendKeeps(st: State, o: Options, id: Text)
    requires Inv(st, o) && id in st.store.challenges && !st.store.challenges[id].verifying
    ensures Inv(st.(store := WithChallenge(st.store, id, st.store.challenges[id].(consumed := true))), o)
  {
    hide Times;
    var next := st.(store := WithChallenge(st.store, id, st.store.challenges[id].(consumed := true)));
    forall k ensures ChallengeOk(next, o, k) {
      assert ChallengeOk(st, o, k);
    }
    forall k | k in next.pending ensures PendingOk(next, next.pending[k]) {
      assert PendingOk(st, st.pending[k]);
    }
  }

  lemma BeginKeeps(st: State, o: Options, call: nat, p: Pending)
    requires Inv(st, o) && call !in st.pending && p.challenge in st.store.challenges
    requires !st.store.challenges[p.challenge].verifying && !st.store.challenges[p.challenge].consumed
    ensures
      var c := st.store.challenges[p.challenge];
      var store := WithChallenge(st.store, p.challenge, c.(attempts := c.attempts + 1, verifying := true));
      Inv(State(store, st.pending[call := p], st.comparisons + [p.challenge], st.successes), o)
  {
    var c := st.store.challenges[p.challenge];
    var store := WithChallenge(st.store, p.challenge, c.(attempts := c.attempts + 1, verifying := true));
    var next := State(store, st.pending[call := p], st.comparisons + [p.challenge], st.successes);
    forall k ensures ChallengeOk(next, o, k) {
      assert ChallengeOk(st, o, k);
    }
    forall k | k in next.pending ensures PendingOk(next, next.pending[k]) {
      assert k in st.pending ==> PendingOk(st, st.pending[k]);
    }
    forall k, l | k in next.pending && l in next.pending && k != l ensures Apart(next.pending[k], next.pending[l]) {
      assert k in st.pending ==> PendingOk(st, st.pending[k]);
      assert l in st.pending ==> PendingOk(st, st.pending[l]);
      assert k in st.pending && l in st.pending ==> Apart(st.pending[k], st.pending[l]);
    }
  }

  /** How a comparison may leave its challenge. */
  predicate Concluded(before: Challenge, after: Challenge, ok: bool, o: Options) {
    && after.attempts == before.attempts
    && (ok ==> after.consumed)
    && (!after.consumed && !after.verifying ==> after.attempts < o.maxAttempts)
  }

  lemma EndKeeps(st: State, o: Options, store: Store, ok: bool, call: nat)
    requires Inv(st, o) && call in st.pending
    requires
      var id := st.pending[call].challenge;
      && store.challenges.Keys == st.store.challenges.Keys
      && (forall k | k in st.store.challenges && k != id :: store.challenges[k] == st.store.challenges[k])
      && id in store.challenges && id in st.store.challenges
      && Concluded(st.store.challenges[id], store.challenges[id], ok, o)
    ensures Inv(Ended(st, store, ok, call, st.pending[call].challenge), o)
  {
    var me := st.pending[call];
    var next := Ended(st, store, ok, call, me.challenge);
    assert PendingOk(st, me) && ChallengeOk(st, o, me.challenge);
    forall k ensures ChallengeOk(next, o, k) {
      assert ChallengeOk(st, o, k);
    }
    forall k | k in next.pending ensures PendingOk(next, next.pending[k]) {
      assert PendingOk(st, st.pending[k]) && Apart(st.pending[k], me);
    }
    forall k, l | k in next.pending && l in next.pending && k != l ensures Apart(next.pending[k], next.pending[l]) {
      assert Apart(st.pending[k], st.pending[l]);
    }
  }

  lemma StartVerifyKeeps(st: State, o: Options, call: nat, id: Text, otp: Text, now: int)
    requires Inv(st, o)
    ensures Inv(Step(st, o, StartVerify(call, id, otp, now)), o)
  {
    hide Inv, IsOtp;
    if call !in st.pending && id in st.store.challenges {
      var c := st.store.challenges[id];
      if !c.verifying {
        SpendKeeps(st, o, id);
        if !c.consumed {
          BeginKeeps(st, o, call, Verifying(id, otp, now));
        }
      }
    }
  }

  lemma StartConfirmKeeps(st: State, o: Options, call: nat, sessionId: Text, id: Text, otp: Text, now: int)
    requires Inv(st, o)
    ensures Inv(Step(st, o, StartConfirm(call, sessionId, id, otp, now)), o)
  {
    hide Inv, IsOtp;
    var store := RequireSession(st.store, sessionId, now).0;
    var st1 := st.(store := store);
    StoreKeeps(st, o, store);
    if call !in st.pending && id in store.challenges {
      var c := store.challenges[id];
      if !c.verifying {
        SpendKeeps(st1, o, id);
        var session := RequireSession(st.store, sessionId, now).1;
        if !c.consumed && session.Ok? {
          BeginKeeps(st1, o, call, Confirming(id, otp, session.value.principalId));
        }
      }
    }
  }

  lemma FinishVerifyKeeps(st: State, o: Options, call: nat, sessionId: Text)
    requires Inv(st, o)
    ensures Inv(Step(st, o, FinishVerify(call, sessionId)), o)
  {
    hide Inv, IdentityForHash;
    if call in st.pending && st.pending[call].Verifying? && st.pending[call].challenge in st.store.challenges {
      var p := st.pending[call];
      HeldAttempts(st, o, call);
      var (store, r) := EndVerify(st.store, o, p.challenge, p.otp, p.now, sessionId);
      EndKeeps(st, o, store, r.Ok?, call);
    }
  }

  lemma FinishConfirmKeeps(st: State, o: Options, call: nat)
    requires Inv(st, o)
    ensures Inv(Step(st, o, FinishConfirm(call)), o)
  {
    hide Inv, FindPrincipal, SessionsOf;
    if call in st.pending && st.pending[call].Confirming? && st.pending[call].challenge in st.store.challenges {
      var p := st.pending[call];
      HeldAttempts(st, o, call);
      var (store, r) := EndConfirm(st.store, o, p.principalId, p.challenge, p.otp);
      EndKeeps(st, o, store, r.Ok?, call);
    }
  }

  lemma HeldAttempts(st: State, o: Options, call: nat)
    requires Inv(st, o) && call in st.pending
    ensures PendingOk(st, st.pending[call])
    ensures st.store.challenges[st.pending[call].challenge].attempts <= o.maxAttempts
  {
    assert ChallengeOk(st, o, st.pending[call].challenge);
  }

  lemma StepKeeps(st: State, o: Options, e: Event)
    requires Inv(st, o) && ValidOptions(o)
    ensures Inv(Step(st, o, e), o)
  {
    hide Inv, BeginVerify, EndVerify, BeginConfirm, EndConfirm, ValidOptions;
    match e
    case Register(i) => StoreKeeps(st, o, Registered(st.store, i));
    case Issue(id, c) =>
      if id !in st.store.challenges {
        NewChallengeKeeps(st, o, id, c.(attempts := 0, verifying := false, consumed := false, delivered := false));
      }
    case Deliver(id) => StoreKeeps(st, o, Step(st, o, e).store);
    case SetTarget(id, target, principalId) => StoreKeeps(st, o, Step(st, o, e).store);
    case StartVerify(call, id, otp, now) => StartVerifyKeeps(st, o, call, id, otp, now);
    case FinishVerify(call, sessionId) => FinishVerifyKeeps(st, o, call, sessionId);
    case StartConfirm(call, sessionId, id, otp, now) => StartConfirmKeeps(st, o, call, sessionId, id, otp, now);
    case FinishConfirm(call) => FinishConfirmKeeps(st, o, call);
  }

  lemma InitInv(o: Options)
    ensures Inv(Init(), o)
  {}

  lemma {:induction false} RunKeeps(st: State, o: Options, events: seq<Event>)
    requires Inv(st, o) && ValidOptions(o)
    ensures Inv(Run(st, o, events), o)
    decreases |events|
  {
    hide Step, Inv, ValidOptions;
    if |events| > 0 {
      StepKeeps(st, o, events[0]);
      RunKeeps(Step(st, o, events[0]), o, events[1..]);
    }
  }

  // ---------------------------------------------------------------- theorems

  /** In every interleaving a challenge has at most one comparison in flight. */
  lemma OneComparisonInFlight(o: Options, events: seq<Event>, c: nat, d: nat)
    requires ValidOptions(o)
    requires
      var pending := Run(Init(), o, events).pending;
      c in pending && d in pending && pending[c].challenge == pending[d].challenge
    ensures c == d
  {
    hide Run, ChallengeOk, PendingOk, ValidOptions;
    InitInv(o);
    RunKeeps(Init(), o, events);
    var pending := Run(Init(), o, events).pending;
    assert c != d ==> Apart(pending[c], pending[d]);
  }

  /** At most `maxAttempts` comparisons in all, and at most one success: one session or one change. */
  lemma AttemptsAreBounded(o: Options, events: seq<Event>, id: Text)
    requires ValidOptions(o)
    ensures Times(Run(Init(), o, events).comparisons, id) <= o.maxAttempts
    ensures Times(Run(Init(), o, events).successes, id) <= 1
  {
    hide Run, PendingOk, Apart, Times;
    InitInv(o);
    RunKeeps(Init(), o, events);
    assert ChallengeOk(Run(Init(), o, events), o, id);
  }

  /** After a success the challenge starts no further comparison. */
  lemma SuccessIsFinal(o: Options, events: seq<Event>, id: Text, otp: Text, now: int, sessionId: Text)
    requires ValidOptions(o) && Times(Run(Init(), o, events).successes, id) == 1
    ensures BeginVerify(Run(Init(), o, events).store, o, id, otp, now).1.Err?
    ensures BeginConfirm(Run(Init(), o, events).store, sessionId, id, otp, now).1.Err?
  {
    hide Run, PendingOk, Apart, Times, IsOtp, ValidOptions;
    InitInv(o);
    RunKeeps(Init(), o, events);
    assert ChallengeOk(Run(Init(), o, events), o, id);
  }

  /** A session is minted exactly for the right code of a delivered login or recovery challenge whose
      address belongs to an identity, and it is that identity's principal who gets it. */
  lemma SessionExactly(st: Store, o: Options, id: Text, otp: Text, now: int, sessionId: Text)
    requires id in st.challenges
    ensures
      var (next, r) := EndVerify(st, o, id, otp, now, sessionId);
      var c := st.challenges[id];
      && (r.Ok? <==>
            && otp == c.otp && c.delivered && c.purpose != EmailChange
            && IdentityForHash(st, c.subjectHash).Some?)
      && (r.Ok? ==>
            && next.sessions == st.sessions[sessionId :=
                 Session(IdentityForHash(st, c.subjectHash).value.principalId, now + o.sessionTtl)]
            && next.challenges[id].consumed)
      && (r.Err? ==> next.sessions == st.sessions)
  {
    hide FindIdentity;
  }

  /** A confirmed change ends every session of the principal and touches no other identity. */
  lemma ChangeEndsSessions(st: Store, o: Options, principalId: Text, id: Text, otp: Text)
    requires id in st.challenges && EndConfirm(st, o, principalId, id, otp).1.Ok?
    ensures
      var next := EndConfirm(st, o, principalId, id, otp).0;
      && next.challenges[id].consumed && |next.identities| == |st.identities|
      && (forall s | s in st.sessions && st.sessions[s].principalId == principalId :: s in next.revoked)
      && (forall k | 0 <= k < |st.identities| ::
            next.identities[k] == st.identities[k]
            || (st.identities[k].principalId == principalId
                && next.identities[k] == st.identities[k].(subjectHash := st.challenges[id].targetSubjectHash.value)))
  {
    hide FindPrincipal;
  }

  // ------------------------------------------------------- the subject index

  /** Every identity is found under its own address. */
  ghost predicate Indexed(st: Store) {
    forall k | 0 <= k < |st.identities| :: IndexedAt(st, k)
  }

  predicate IndexedAt(st: Store, k: nat) {
    k < |st.identities| ==>
      && st.identities[k].subjectHash in st.subjectIndex
      && st.subjectIndex[st.identities[k].subjectHash] == st.identities[k].identityId
  }

  predicate DistinctIds(identities: seq<Identity>) {
    forall j, k | 0 <= j < k < |identities| :: identities[j].identityId != identities[k].identityId
  }

  /** A confirmed change keeps every identity findable exactly when nobody else holds the new address
      by then; the check made when the change was requested is not repeated. */
  lemma ChangeKeepsIndexExactly(st: Store, k: nat, target: Text)
    requires Indexed(st) && DistinctIds(st.identities) && k < |st.identities|
    ensures Indexed(Moved(st, k, target)) <==>
      forall j | 0 <= j < |st.identities| && j != k :: st.identities[j].subjectHash != target
  {
    hide SessionsOf;
    var next := Moved(st, k, target);
    assert IndexedAt(st, k);
    if j :| 0 <= j < |st.identities| && j != k && st.identities[j].subjectHash == target {
      assert IndexedAt(st, j) && next.identities[j] == st.identities[j];
      assert !IndexedAt(next, j);
    } else {
      forall j | 0 <= j < |next.identities| ensures IndexedAt(next, j) {
        assert IndexedAt(st, j);
      }
    }
  }

  /** Registration never breaks the index. */
  lemma RegisterKeepsIndex(st: Store, i: Identity)
    requires Indexed(st)
    ensures Indexed(Registered(st, i))
  {
    var next := Registered(st, i);
    forall j | 0 <= j < |next.identities| ensures IndexedAt(next, j) {
      assert j < |st.identities| ==> IndexedAt(st, j);
    }
  }

  /** Every address in the index is the address of the identity named there. */
  ghost predicate Backed(st: Store) {
    forall h | h in st.subjectIndex :: exists k :: HeldBy(st, k, h)
  }

  predicate HeldBy(st: Store, k: nat, hash: Text) {
    && k < |st.identities| && st.identities[k].subjectHash == hash
    && hash in st.subjectIndex && st.subjectIndex[hash] == st.identities[k].identityId
  }

  /** What no step ever breaks. */
  ghost predicate WellKept(st: Store) {
    DistinctIds(st.identities) && Backed(st)
  }

  lemma {:induction false} FindIdentityExactly(identities: seq<Identity>, k: nat)
    requires DistinctIds(identities) && k < |identities|
    ensures FindIdentity(identities, identities[k].identityId) == Some(identities[k])
  {
    if k > 0 {
      forall i, j | 0 <= i < j < |identities[1..]|
        ensures identities[1..][i].identityId != identities[1..][j].identityId {}
      FindIdentityExactly(identities[1..], k - 1);
    }
  }

  lemma {:induction false} FoundIsThere(identities: seq<Identity>, identityId: Text)
    ensures FindIdentity(identities, identityId).Some? ==>
      FindIdentity(identities, identityId).value in identities
        && FindIdentity(identities, identityId).value.identityId == identityId
    ensures FindIdentity(identities, identityId).None? ==> forall i | i in identities :: i.identityId != identityId
  {
    if |identities| > 0 {
      FoundIsThere(identities[1..], identityId);
    }
  }

  /** Looking up its own address finds an identity. */
  ghost predicate Findable(st: Store) {
    forall k | 0 <= k < |st.identities| :: IdentityForHash(st, st.identities[k].subjectHash) == Some(st.identities[k])
  }

  lemma IndexedIsFindable(st: Store)
    requires DistinctIds(st.identities)
    ensures Indexed(st) <==> Findable(st)
  {
    forall k | 0 <= k < |st.identities|
      ensures IndexedAt(st, k) <==> IdentityForHash(st, st.identities[k].subjectHash) == Some(st.identities[k]) {
      FindIdentityExactly(st.identities, k);
      if st.identities[k].subjectHash in st.subjectIndex {
        FoundIsThere(st.identities, st.subjectIndex[st.identities[k].subjectHash]);
      }
    }
  }

  /** The identity that a step moves, and the address it moves to. */
  function Change(st: State, o: Options, e: Event): (r: Option<(nat, Text)>)
    ensures r.Some? ==> r.value.0 < |st.store.identities|
  {
    if !e.FinishConfirm? || e.call !in st.pending || !st.pending[e.call].Confirming?
       || st.pending[e.call].challenge !in st.store.challenges
    then None
    else
      var p := st.pending[e.call];
      var c := st.store.challenges[p.challenge];
      if p.otp != c.otp || !c.delivered || c.targetSubjectHash.None? then None
      else
        var k :- FindPrincipal(st.store.identities, p.principalId);
        Some((k, c.targetSubjectHash.value))
  }

  /** The identities and the index of two stores agree. */
  predicate SameAccounts(st: Store, next: Store) {
    next.identities == st.identities && next.subjectIndex == st.subjectIndex
  }

  lemma StepAccounts(st: State, o: Options, e: Event)
    ensures
      match Change(st, o, e)
      case Some(change) => SameAccounts(Moved(st.store, change.0, change.1), Step(st, o, e).store)
      case None =>
        SameAccounts(if e.Register? then Registered(st.store, e.identity) else st.store, Step(st, o, e).store)
  {
    hide SessionsOf, IdentityForHash, FindPrincipal, IsOtp;
  }

  lemma SameAccountsKept(st: Store, next: Store)
    requires SameAccounts(st, next)
    ensures WellKept(st) ==> WellKept(next)
    ensures Findable(st) <==> Findable(next)
  {
    hide FindIdentity, DistinctIds;
    if WellKept(st) {
      forall h | h in next.subjectIndex ensures exists k :: HeldBy(next, k, h) {
        var k :| HeldBy(st, k, h);
        assert HeldBy(next, k, h);
      }
    }
  }

  lemma MovedKept(st: Store, k: nat, target: Text)
    requires WellKept(st) && k < |st.identities|
    ensures WellKept(Moved(st, k, target))
  {
    hide SessionsOf;
    var next := Moved(st, k, target);
    forall h | h in next.subjectIndex ensures exists m :: HeldBy(next, m, h) {
      if h == target {
        assert HeldBy(next, k, h);
      } else {
        var m :| HeldBy(st, m, h);
        assert HeldBy(next, m, h);
      }
    }
  }

  lemma RegisteredKept(st: Store, i: Identity)
    requires WellKept(st)
    ensures WellKept(Registered(st, i))
  {
    hide FindIdentity;
    var next := Registered(st, i);
    FoundIsThere(st.identities, i.identityId);
    if next != st {
      forall h | h in next.subjectIndex ensures exists m :: HeldBy(next, m, h) {
        if h == i.subjectHash {
          assert HeldBy(next, |st.identities|, h);
        } else {
          var m :| HeldBy(st, m, h);
          assert HeldBy(next, m, h);
        }
      }
    }
  }

  lemma StepKept(st: State, o: Options, e: Event)
    requires WellKept(st.store)
    ensures WellKept(Step(st, o, e).store)
  {
    hide WellKept, Step, Moved, Registered, SameAccounts;
    StepAccounts(st, o, e);
    match Change(st, o, e)
    case Some(change) =>
      MovedKept(st.store, change.0, change.1);
      SameAccountsKept(Moved(st.store, change.0, change.1), Step(st, o, e).store);
    case None =>
      var before := if e.Register? then Registered(st.store, e.identity) else st.store;
      if e.Register? {
        RegisteredKept(st.store, e.identity);
      }
      SameAccountsKept(before, Step(st, o, e).store);
  }

  lemma {:induction false} RunKept(st: State, o: Options, events: seq<Event>)
    requires WellKept(st.store)
    ensures WellKept(Run(st, o, events).store)
    decreases |events|
  {
    hide WellKept, Step;
    if |events| > 0 {
      StepKept(st, o, events[0]);
      RunKept(Step(st, o, events[0]), o, events[1..]);
    }
  }

  /** In every interleaving identities have ids of their own, and every address in the index is that of the
      identity named there. */
  lemma IndexIsBacked(o: Options, events: seq<Event>)
    ensures DistinctIds(Run(Init(), o, events).store.identities) && Backed(Run(Init(), o, events).store)
  {
    hide Run;
    RunKept(Init(), o, events);
  }

  /** A confirmed change whose new address the index gives to another identity by then: the check made when
      the change was requested is not repeated. */
  predicate TakesOver(st: State, o: Options, e: Event) {
    match Change(st, o, e)
    case None => false
    case Some(change) =>
      && change.1 in st.store.subjectIndex
      && st.store.subjectIndex[change.1] != st.store.identities[change.0].identityId
  }

  predicate NeverTakesOver(st: State, o: Options, events: seq<Event>)
    decreases |events|
  {
    |events| == 0 || (!TakesOver(st, o, events[0]) && NeverTakesOver(Step(st, o, events[0]), o, events[1..]))
  }

  /** Every identity is found under its address, after every prefix of the run. */
  ghost predicate AlwaysFindable(st: State, o: Options, events: seq<Event>)
    decreases |events|
  {
    Findable(st.store) && (|events| == 0 || AlwaysFindable(Step(st, o, events[0]), o, events[1..]))
  }

  /** One step keeps every identity findable exactly when it takes over no address. */
  lemma StepFindable(st: State, o: Options, e: Event)
    requires WellKept(st.store) && Findable(st.store)
    ensures Findable(Step(st, o, e).store) <==> !TakesOver(st, o, e)
  {
    hide Findable, Backed, Step, Moved, Registered, SameAccounts, IndexedAt;
    StepAccounts(st, o, e);
    IndexedIsFindable(st.store);
    match Change(st, o, e)
    case Some(change) =>
      var (k, target) := change;
      var moved := Moved(st.store, k, target);
      MovedFindable(st.store, k, target);
      SameAccountsKept(moved, Step(st, o, e).store);
    case None =>
      var before := if e.Register? then Registered(st.store, e.identity) else st.store;
      if e.Register? {
        RegisterKeepsIndex(st.store, e.identity);
        RegisteredKept(st.store, e.identity);
        IndexedIsFindable(before);
      }
      SameAccountsKept(before, Step(st, o, e).store);
  }

  lemma MovedFindable(st: Store, k: nat, target: Text)
    requires WellKept(st) && Indexed(st) && k < |st.identities|
    ensures Findable(Moved(st, k, target)) <==>
      !(target in st.subjectIndex && st.subjectIndex[target] != st.identities[k].identityId)
  {
    hide Findable, Moved;
    ChangeKeepsIndexExactly(st, k, target);
    MovedKept(st, k, target);
    IndexedIsFindable(Moved(st, k, target));
    if target in st.subjectIndex {
      var m: nat :| HeldBy(st, m, target);
      assert m == k || st.identities[m].identityId != st.identities[k].identityId;
    }
    forall j | 0 <= j < |st.identities| && j != k && st.identities[j].subjectHash == target
      ensures target in st.subjectIndex && st.subjectIndex[target] != st.identities[k].identityId {
      assert IndexedAt(st, j);
    }
  }

  lemma {:induction false} FindableFrom(st: State, o: Options, events: seq<Event>)
    requires WellKept(st.store) && Findable(st.store)
    ensures AlwaysFindable(st, o, events) <==> NeverTakesOver(st, o, events)
    decreases |events|
  {
    hide WellKept, Findable, Step, TakesOver;
    if |events| > 0 {
      var next := Step(st, o, events[0]);
      StepKept(st, o, events[0]);
      StepFindable(st, o, events[0]);
      if Findable(next.store) {
        FindableFrom(next, o, events[1..]);
      } else {
        assert !AlwaysFindable(next, o, events[1..]);
      }
    }
  }

  /** In every interleaving, every identity is found under its own address throughout if and only if no
      confirmed change takes an address that belongs to another identity by then. */
  lemma FindableThroughoutExactly(o: Options, events: seq<Event>)
    ensures AlwaysFindable(Init(), o, events) <==> NeverTakesOver(Init(), o, events)
  {
    hide AlwaysFindable, NeverTakesOver;
    FindableFrom(Init(), o, events);
  }

  // ------------------------------------------------------- an address taken over

  lemma {:induction false} RunAppend(st: State, o: Options, first: seq<Event>, second: seq<Event>)
    ensures Run(st, o, first + second) == Run(Run(st, o, first), o, second)
    decreases |first|
  {
    hide Step;
    if |first| == 0 {
      assert first + second == second;
    } else {
      assert (first + second)[1..] == first[1..] + second;
      RunAppend(Step(st, o, first[0]), o, first[1..], second);
    }
  }

  lemma Next(st: State, o: Options, events: seq<Event>)
    requires |events| > 0
    ensures Run(st, o, events) == Run(Step(st, o, events[0]), o, events[1..])
  {
    hide Step;
  }

  lemma RunFour(st: State, o: Options, a: Event, b: Event, c: Event, d: Event)
    ensures Run(st, o, [a, b, c, d]) == Step(Step(Step(Step(st, o, a), o, b), o, c), o, d)
  {
    hide Step;
    var events := [a, b, c, d];
    assert events[1..] == [b, c, d] && [b, c, d][1..] == [c, d] && [c, d][1..] == [d] && [d][1..] == [];
    Next(st, o, events);
    Next(Step(st, o, a), o, [b, c, d]);
    Next(Step(Step(st, o, a), o, b), o, [c, d]);
    Next(Step(Step(Step(st, o, a), o, b), o, c), o, [d]);
  }

  /** What becomes of a challenge that is issued and delivered. */
  function Sent(purpose: Purpose, hash: Text, otp: Text): Challenge {
    Challenge(purpose, hash, None, None, 10, otp, 0, false, false, true)
  }

  /** A login with the code sent to an address. */
  function Login(call: nat, id: Text, hash: Text, otp: Text, sessionId: Text): seq<Event> {
    [Issue(id, Sent(Purpose.Login, hash, otp)), Deliver(id), StartVerify(call, id, otp, 0),
      FinishVerify(call, sessionId)]
  }

  /** It gives the identity found under the address a session, and leaves accounts and other challenges alone. */
  lemma LoginDone(st: State, o: Options, call: nat, id: Text, hash: Text, otp: Text, sessionId: Text)
    requires ValidOptions(o) && IsOtp(otp) && st.pending == map[] && id !in st.store.challenges
    requires IdentityForHash(st.store, hash).Some?
    ensures
      var next := Run(st, o, Login(call, id, hash, otp, sessionId));
      && next.pending == map[] && SameAccounts(st.store, next.store) && next.store.revoked == st.store.revoked
      && next.store.sessions
        == st.store.sessions[sessionId := Session(IdentityForHash(st.store, hash).value.principalId, o.sessionTtl)]
      && next.store.challenges.Keys == st.store.challenges.Keys + {id}
  {
    hide IsOtp, IdentityForHash, Step;
    LoginBegins(st, o, call, id, hash, otp);
    var begun := Step(Step(Step(st, o, Issue(id, Sent(Purpose.Login, hash, otp))), o, Deliver(id)), o,
      StartVerify(call, id, otp, 0));
    SameLookup(st.store, begun.store, hash);
    LoginEnds(begun, o, call, id, otp, sessionId);
    RunFour(st, o, Issue(id, Sent(Purpose.Login, hash, otp)), Deliver(id), StartVerify(call, id, otp, 0),
      FinishVerify(call, sessionId));
  }

  lemma LoginBegins(st: State, o: Options, call: nat, id: Text, hash: Text, otp: Text)
    requires ValidOptions(o) && IsOtp(otp) && st.pending == map[] && id !in st.store.challenges
    ensures
      var c := Sent(Purpose.Login, hash, otp);
      var begun := Step(Step(Step(st, o, Issue(id, c)), o, Deliver(id)), o, StartVerify(call, id, otp, 0));
      && begun.pending == map[call := Verifying(id, otp, 0)]
      && begun.store == WithChallenge(st.store, id, c.(attempts := 1, verifying := true))
  {
    hide IsOtp;
    var c := Sent(Purpose.Login, hash, otp);
    var issued := Step(st, o, Issue(id, c));
    var delivered := Step(issued, o, Deliver(id));
    assert delivered.store == WithChallenge(st.store, id, c);
  }

  lemma LoginEnds(begun: State, o: Options, call: nat, id: Text, otp: Text, sessionId: Text)
    requires begun.pending == map[call := Verifying(id, otp, 0)] && id in begun.store.challenges
    requires
      var c := begun.store.challenges[id];
      c.otp == otp && c.delivered && c.purpose == Purpose.Login && IdentityForHash(begun.store, c.subjectHash).Some?
    ensures
      var next := Step(begun, o, FinishVerify(call, sessionId));
      var found := IdentityForHash(begun.store, begun.store.challenges[id].subjectHash).value;
      && next.pending == map[] && SameAccounts(begun.store, next.store) && next.store.revoked == begun.store.revoked
      && next.store.sessions == begun.store.sessions[sessionId := Session(found.principalId, o.sessionTtl)]
      && next.store.challenges.Keys == begun.store.challenges.Keys
  {
    hide FindIdentity;
  }

  lemma SameLookup(st: Store, next: Store, hash: Text)
    requires SameAccounts(st, next)
    ensures IdentityForHash(st, hash) == IdentityForHash(next, hash)
  {
    hide FindIdentity;
  }

  /** The request of a change to a free address. */
  function Asks(id: Text, hash: Text, otp: Text, principalId: Text): seq<Event> {
    [Issue(id, Sent(EmailChange, hash, otp)), Deliver(id), SetTarget(id, hash, principalId)]
  }

  lemma AsksDone(st: State, o: Options, id: Text, hash: Text, otp: Text, principalId: Text)
    requires id !in st.store.challenges
    ensures
      var asked := Sent(EmailChange, hash, otp).(targetSubjectHash := Some(hash), principalId := Some(principalId));
      Run(st, o, Asks(id, hash, otp, principalId)) == st.(store := WithChallenge(st.store, id, asked))
  {
    var events := Asks(id, hash, otp, principalId);
    assert events[1..] == [events[1], events[2]] && [events[1], events[2]][1..] == [events[2]]
      && [events[2]][1..] == [];
    var issued := Step(st, o, events[0]);
    Next(st, o, events);
    Next(issued, o, [events[1], events[2]]);
    Next(Step(issued, o, events[1]), o, [events[2]]);
  }

  /** The change is confirmed. */
  lemma ConfirmDone(st: State, o: Options, call: nat, sessionId: Text, id: Text, otp: Text, k: nat)
    requires IsOtp(otp) && st.pending == map[] && k < |st.store.identities|
    requires sessionId in st.store.sessions && sessionId !in st.store.revoked
      && st.store.sessions[sessionId].expiresAt > 0
    requires id in st.store.challenges
    requires
      var c := st.store.challenges[id];
      && c.purpose == EmailChange && c.otp == otp && c.delivered && !c.consumed && !c.verifying && c.expiresAt > 0
      && c.principalId == Some(st.store.sessions[sessionId].principalId) && c.targetSubjectHash.Some?
    requires FindPrincipal(st.store.identities, st.store.sessions[sessionId].principalId) == Some(k)
    ensures
      var next := Run(st, o, [StartConfirm(call, sessionId, id, otp, 0), FinishConfirm(call)]);
      && next.pending == map[] && next.store.challenges.Keys == st.store.challenges.Keys
      && SameAccounts(Moved(st.store, k, st.store.challenges[id].targetSubjectHash.value), next.store)
      && next.store.revoked <= st.store.revoked + st.store.sessions.Keys
  {
    hide IsOtp, FindPrincipal;
    var events := [StartConfirm(call, sessionId, id, otp, 0), FinishConfirm(call)];
    assert events[1..] == [FinishConfirm(call)] && [FinishConfirm(call)][1..] == [];
    Next(st, o, events);
    Next(Step(st, o, events[0]), o, [FinishConfirm(call)]);
  }

  const FIRST_LOGIN: Text := [1]
  const CHANGE: Text := [2]
  const SECOND_LOGIN: Text := [3]
  const FIRST_SESSION: Text := [4]
  const SECOND_SESSION: Text := [5]

  /** Identity a logs in and asks to move to an address that is free; c registers it; a confirms; and then
      somebody logs in with the code sent to that address. */
  function Takeover(a: Identity, c: Identity, otp: Text): seq<Event> {
    [Register(a)]
    + (Login(0, FIRST_LOGIN, a.subjectHash, otp, FIRST_SESSION)
       + (Asks(CHANGE, c.subjectHash, otp, a.principalId)
          + ([Register(c)]
             + ([StartConfirm(1, FIRST_SESSION, CHANGE, otp, 0), FinishConfirm(1)]
                + Login(2, SECOND_LOGIN, c.subjectHash, otp, SECOND_SESSION)))))
  }

  lemma RunOne(st: State, o: Options, e: Event)
    ensures Run(st, o, [e]) == Step(st, o, e)
  {
    hide Step;
    Next(st, o, [e]);
  }

  /** The accounts before the change is confirmed, and the change that waits for it. */
  predicate Waiting(st: State, a: Identity, c: Identity, otp: Text, ttl: int) {
    && st.pending == map[] && st.store.identities == [a, c] && st.store.revoked == {}
    && st.store.subjectIndex == map[a.subjectHash := a.identityId, c.subjectHash := c.identityId]
    && st.store.sessions == map[FIRST_SESSION := Session(a.principalId, ttl)]
    && st.store.challenges.Keys == {FIRST_LOGIN, CHANGE}
    && st.store.challenges[CHANGE]
       == Sent(EmailChange, c.subjectHash, otp).(targetSubjectHash := Some(c.subjectHash),
                                                     principalId := Some(a.principalId))
  }

  lemma ReachesWaiting(o: Options, a: Identity, c: Identity, otp: Text, rest: seq<Event>) returns (st: State)
    requires ValidOptions(o) && IsOtp(otp) && a.identityId != c.identityId && a.subjectHash != c.subjectHash
    ensures Waiting(st, a, c, otp, o.sessionTtl)
    ensures
      var (login, asks) :=
        (Login(0, FIRST_LOGIN, a.subjectHash, otp, FIRST_SESSION), Asks(CHANGE, c.subjectHash, otp, a.principalId));
      Run(Init(), o, [Register(a)] + (login + (asks + ([Register(c)] + rest)))) == Run(st, o, rest)
  {
    hide IsOtp, Run, Login, Asks, ValidOptions;
    var (login, asks) :=
      (Login(0, FIRST_LOGIN, a.subjectHash, otp, FIRST_SESSION), Asks(CHANGE, c.subjectHash, otp, a.principalId));
    var st1 := Step(Init(), o, Register(a));
    assert st1.store.identities == [a] && st1.store.subjectIndex == map[a.subjectHash := a.identityId];
    assert IdentityForHash(st1.store, a.subjectHash) == Some(a);
    LoginDone(st1, o, 0, FIRST_LOGIN, a.subjectHash, otp, FIRST_SESSION);
    var st2 := Run(st1, o, login);
    AsksDone(st2, o, CHANGE, c.subjectHash, otp, a.principalId);
    var st3 := Run(st2, o, asks);
    st := Step(st3, o, Register(c));
    assert FindIdentity([a], c.identityId).None? by { FoundIsThere([a], c.identityId); }
    RunOne(Init(), o, Register(a));
    RunOne(st3, o, Register(c));
    RunAppend(Init(), o, [Register(a)], login + (asks + ([Register(c)] + rest)));
    RunAppend(st1, o, login, asks + ([Register(c)] + rest));
    RunAppend(st2, o, asks, [Register(c)] + rest);
    RunAppend(st3, o, [Register(c)], rest);
  }

  /** The code sent to c's address then opens a session of a's principal, and nothing finds c any more. */
  lemma TakeoverLogsInAnother(o: Options, a: Identity, c: Identity, otp: Text)
    requires ValidOptions(o) && IsOtp(otp)
    requires a.identityId != c.identityId && a.principalId != c.principalId && a.subjectHash != c.subjectHash
    ensures
      var next := Run(Init(), o, Takeover(a, c, otp)).store;
      && c in next.identities && IdentityForHash(next, c.subjectHash) == Some(a.(subjectHash := c.subjectHash))
      && SECOND_SESSION in next.sessions && SECOND_SESSION !in next.revoked
      && next.sessions[SECOND_SESSION].principalId == a.principalId
  {
    hide IsOtp, Run, Login, Asks, ValidOptions, Moved;
    var confirm := [StartConfirm(1, FIRST_SESSION, CHANGE, otp, 0), FinishConfirm(1)];
    var login := Login(2, SECOND_LOGIN, c.subjectHash, otp, SECOND_SESSION);
    var st := ReachesWaiting(o, a, c, otp, confirm + login);
    OptionsPositive(o);
    assert FindPrincipal([a, c], a.principalId) == Some(0);
    ConfirmDone(st, o, 1, FIRST_SESSION, CHANGE, otp, 0);
    RunAppend(st, o, confirm, login);
    var st1 := Run(st, o, confirm);
    MovedTo(st.store, a, c);
    MovedFound(st1.store, a, c);
    LoginDone(st1, o, 2, SECOND_LOGIN, c.subjectHash, otp, SECOND_SESSION);
    MovedFound(Run(st1, o, login).store, a, c);
  }

  lemma OptionsPositive(o: Options)
    requires ValidOptions(o)
    ensures o.sessionTtl > 0
  {}

  lemma MovedTo(st: Store, a: Identity, c: Identity)
    requires st.identities == [a, c]
      && st.subjectIndex == map[a.subjectHash := a.identityId, c.subjectHash := c.identityId]
    requires a.subjectHash != c.subjectHash
    ensures Moved(st, 0, c.subjectHash).identities == [a.(subjectHash := c.subjectHash), c]
    ensures Moved(st, 0, c.subjectHash).subjectIndex == map[c.subjectHash := a.identityId]
  {
    hide SessionsOf;
  }

  lemma MovedFound(st: Store, a: Identity, c: Identity)
    requires st.identities == [a.(subjectHash := c.subjectHash), c]
      && st.subjectIndex == map[c.subjectHash := a.identityId]
    ensures IdentityForHash(st, c.subjectHash) == Some(a.(subjectHash := c.subjectHash)) && c in st.identities
  {
    assert st.identities[1] == c;
  }
}
