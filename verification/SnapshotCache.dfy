/**
 The signed snapshot cache.  Its calls wait for the source and for the signature verifier;
 everything between two waits is one step, so calls interleave at the waits.
 */
module SnapshotCache {
  import opened Strings
  import opened Wrappers
  import opened TrustSnapshot
  import opened TrustEvaluation

  datatype Scope = Scope(tenantId: Text, jurisdiction: Text)

  predicate ValidScope(scope: Scope) {
    IsScope(scope.tenantId) && IsScope(scope.jurisdiction)
  }

  function ScopeOf(s: Signed): Scope {
    Scope(s.snapshot.tenantId, s.snapshot.jurisdiction)
  }

  function ScopeKey(scope: Scope): Text {
    Join2(scope.tenantId, scope.jurisdiction)
  }

  lemma ScopeKeyInjective(a: Scope, b: Scope)
    requires ValidScope(a) && ValidScope(b)
    ensures ScopeKey(a) == ScopeKey(b) <==> a == b
  {
    NoControlNoNul(a.tenantId);
    NoControlNoNul(b.tenantId);
    Join2Injective(a.tenantId, a.jurisdiction, b.tenantId, b.jurisdiction);
  }

  type Entries = map<Text, Signed>

  function Cached(entries: Entries, scope: Scope): Option<Signed> {
    if ScopeKey(scope) in entries then Some(entries[ScopeKey(scope)]) else None
  }

  /** `store` refuses a lower sequence, and the same sequence with another id or signature. */
  predicate RollsBack(previous: Signed, next: Signed) {
    || next.snapshot.sequence < previous.snapshot.sequence
    || (next.snapshot.sequence == previous.snapshot.sequence
        && (next.snapshot.snapshotId != previous.snapshot.snapshotId || next.signature != previous.signature))
  }

  /** `store`: None where it throws SNAPSHOT_ROLLBACK. */
  function Stored(entries: Entries, scope: Scope, next: Signed): Option<Entries> {
    var previous := Cached(entries, scope);
    if previous.Some? && RollsBack(previous.value, next) then None else Some(entries[ScopeKey(scope) := next])
  }

  /** What a caller waits for. */
  datatype Ask = Refresh(scope: Scope) | Trust(q: Request) | Status(q: Request) | Credential(q: Request) {
    function Target(): Scope {
      if Refresh? then scope else Scope(q.tenantId, q.jurisdiction)
    }

    /** The answer a usable snapshot gives. */
    function From(s: Snapshot, now: int): Decision {
      match this
      case Refresh(_) => Decision(Verified, SnapshotFresh, Evidence(s))
      case Trust(q) => EvaluateTrust(s, q, now)
      case Status(q) => EvaluateStatus(s, q, now)
      case Credential(q) => EvaluateCredential(s, q, now)
    }
  }

  function Unusable(code: Code, snapshot: Option<Signed>): Decision {
    Decision(Indeterminate, code, if snapshot.Some? then Evidence(snapshot.value.snapshot) else None)
  }

  /** `resolve` up to its first wait: an answer, or None where a fetch begins.  `refresh` always fetches. */
  function Resolved(entries: Entries, ask: Ask, now: int): Option<Decision> {
    var cached := Cached(entries, ask.Target());
    if !ask.Refresh? && cached.Some? && Fresh(cached.value.snapshot, now) then
      Some(ask.From(cached.value.snapshot, now))
    else None
  }

  /** The snapshot `fetch` falls back on for evidence. */
  function Stale(entries: Entries, ask: Ask): Option<Signed> {
    if ask.Refresh? then None else Cached(entries, ask.Target())
  }

  datatype CacheError = SignatureInvalid | OutOfDate | Rollback

  /** `prime` from the verifier's answer to its end. */
  function Primed(entries: Entries, signed: Signed, ok: bool, clock: int): (Entries, Result<Signed, CacheError>) {
    if !ok then (entries, Err(SignatureInvalid))
    else if signed.snapshot.issuedAt > clock || signed.snapshot.expiresAt <= clock then (entries, Err(OutOfDate))
    else
      match Stored(entries, ScopeOf(signed), signed)
      case None => (entries, Err(Rollback))
      case Some(stored) => (stored, Ok(signed))
  }

  /** `fetch` from the verifier's answer to its end; `now` was fixed when the call began. */
  function Fetched(entries: Entries, ask: Ask, now: int, stale: Option<Signed>, signed: Signed, ok: bool):
    (Entries, Decision)
  {
    if !ok then (entries, Unusable(SnapshotInvalid, stale))
    else if signed.snapshot.issuedAt > now || signed.snapshot.expiresAt <= now then
      (entries, Unusable(SnapshotStale, Some(signed)))
    else
      match Stored(entries, ask.Target(), signed)
      case None => (entries, Unusable(SnapshotInvalid, stale))
      case Some(stored) => (stored, ask.From(signed.snapshot, now))
  }

  // --------------------------------------------------------------- the class

  class SignedSnapshotCache {
    var entries: Entries

    constructor ()
      ensures entries == map[]
    {
      entries := map[];
    }

    method Store(signed: Signed, scope: Scope) returns (ok: bool)
      modifies this
      ensures ok <==> Stored(old(entries), scope, signed).Some?
      ensures entries == if ok then Stored(old(entries), scope, signed).value else old(entries)
    {
      var key := ScopeKey(scope);
      if key in entries {
        var previous := entries[key];
        if signed.snapshot.sequence < previous.snapshot.sequence {
          return false;
        }
        if signed.snapshot.sequence == previous.snapshot.sequence
           && (signed.snapshot.snapshotId != previous.snapshot.snapshotId || signed.signature != previous.signature) {
          return false;
        }
      }
      entries := entries[key := signed];
      ok := true;
    }

    method Invalidate(scope: Scope)
      modifies this
      ensures entries == old(entries) - {ScopeKey(scope)}
    {
      entries := entries - {ScopeKey(scope)};
    }

    method Resolve(ask: Ask, now: int) returns (answer: Option<Decision>)
      ensures answer == Resolved(entries, ask, now)
    {
      var key := ScopeKey(ask.Target());
      if !ask.Refresh? && key in entries {
        var cached := entries[key];
        if cached.snapshot.issuedAt <= now && now < cached.snapshot.expiresAt {
          return Some(ask.From(cached.snapshot, now));
        }
      }
      answer := None;
    }

    method FinishPrime(signed: Signed, ok: bool, clock: int) returns (result: Result<Signed, CacheError>)
      modifies this
      ensures (entries, result) == Primed(old(entries), signed, ok, clock)
    {
      if !ok {
        return Err(SignatureInvalid);
      }
      if signed.snapshot.issuedAt > clock || signed.snapshot.expiresAt <= clock {
        return Err(OutOfDate);
      }
      var stored := Store(signed, ScopeOf(signed));
      result := if stored then Ok(signed) else Err(Rollback);
    }

    method FinishFetch(ask: Ask, now: int, stale: Option<Signed>, signed: Signed, ok: bool) returns (answer: Decision)
      modifies this
      ensures (entries, answer) == Fetched(old(entries), ask, now, stale, signed, ok)
    {
      if !ok {
        return Unusable(SnapshotInvalid, stale);
      }
      if signed.snapshot.issuedAt > now || signed.snapshot.expiresAt <= now {
        return Unusable(SnapshotStale, Some(signed));
      }
      var stored := Store(signed, ask.Target());
      answer := if stored then ask.From(signed.snapshot, now) else Unusable(SnapshotInvalid, stale);
    }
  }

  // --------------------------------------------------------------- all runs

  /** Where a call waits. */
  datatype Call =
    | Priming(signed: Signed)
    | Loading(ask: Ask, now: int, stale: Option<Signed>)
    | Verifying(ask: Ask, now: int, stale: Option<Signed>, signed: Signed)

  datatype Reply = Unavailable | Missing | Malformed | Value(signed: Signed)

  datatype Event =
    | Prime(call: nat, signed: Signed)
    | Begin(call: nat, ask: Ask, now: int)
    | Load(call: nat, reply: Reply)
    | Verify(call: nat, ok: bool, clock: int)
    | Invalidate(scope: Scope)

  datatype Answer = Answer(ask: Ask, now: int, decision: Decision)

  /** `accepted` holds every snapshot the verifier has said yes to, `answers` every answer given. */
  datatype State = State(entries: Entries, calls: map<nat, Call>, accepted: set<Signed>, answers: seq<Answer>)

  function Init(): State {
    State(map[], map[], {}, [])
  }

  function Answered(st: State, call: nat, ask: Ask, now: int, decision: Decision): State {
    st.(calls := st.calls - {call}, answers := st.answers + [Answer(ask, now, decision)])
  }

  /** One step; an event that cannot happen in the state changes nothing. */
  function Step(st: State, e: Event): State {
    match e
    case Prime(call, signed) =>
      if call in st.calls || !ValidSigned(signed) then st else st.(calls := st.calls[call := Priming(signed)])
    case Begin(call, ask, now) =>
      if call in st.calls || !ValidScope(ask.Target()) then st
      else
        (match Resolved(st.entries, ask, now)
         case Some(decision) => st.(answers := st.answers + [Answer(ask, now, decision)])
         case None => st.(calls := st.calls[call := Loading(ask, now, Stale(st.entries, ask))]))
    case Load(call, reply) =>
      if call !in st.calls || !st.calls[call].Loading? then st
      else
        var Loading(ask, now, stale) := st.calls[call];
        (match reply
         case Unavailable => Answered(st, call, ask, now, Unusable(RegistryUnavailable, stale))
         case Missing => Answered(st, call, ask, now, Unusable(SnapshotMissing, stale))
         case Malformed => Answered(st, call, ask, now, Unusable(SnapshotInvalid, stale))
         case Value(signed) =>
           if !ValidSigned(signed) || ScopeOf(signed) != ask.Target() then
             Answered(st, call, ask, now, Unusable(SnapshotInvalid, stale))
           else st.(calls := st.calls[call := Verifying(ask, now, stale, signed)]))
    case Verify(call, ok, clock) =>
      if call !in st.calls then st
      else
        (match st.calls[call]
         case Priming(signed) =>
           State(Primed(st.entries, signed, ok, clock).0, st.calls - {call}, Noted(st.accepted, signed, ok), st.answers)
         case Loading(_, _, _) => st
         case Verifying(ask, now, stale, signed) =>
           var (entries, decision) := Fetched(st.entries, ask, now, stale, signed, ok);
           State(entries, st.calls - {call}, Noted(st.accepted, signed, ok), st.answers + [Answer(ask, now, decision)]))
    case Invalidate(scope) =>
      if ValidScope(scope) then st.(entries := st.entries - {ScopeKey(scope)}) else st
  }

  function Noted(accepted: set<Signed>, signed: Signed, ok: bool): set<Signed> {
    if ok then accepted + {signed} else accepted
  }

  function Run(st: State, events: seq<Event>): State
    decreases |events|
  {
    if |events| == 0 then st else Run(Step(st, events[0]), events[1..])
  }

  // ------------------------------------------------------ answers are backed

  /** An accepted snapshot of the scope asked for, fresh at the time of asking, gives this answer. */
  predicate Backs(s: Signed, a: Answer) {
    ScopeOf(s) == a.ask.Target() && Fresh(s.snapshot, a.now) && a.decision == a.ask.From(s.snapshot, a.now)
  }

  ghost predicate Backed(accepted: set<Signed>, a: Answer) {
    a.decision.kind != Indeterminate ==> exists s | s in accepted :: Backs(s, a)
  }

  predicate EntryOk(accepted: set<Signed>, key: Text, s: Signed) {
    s in accepted && ValidScope(ScopeOf(s)) && key == ScopeKey(ScopeOf(s))
  }

  predicate CallOk(c: Call) {
    match c
    case Priming(s) => ValidScope(ScopeOf(s))
    case Loading(ask, _, _) => ValidScope(ask.Target())
    case Verifying(ask, _, _, s) => ValidScope(ask.Target()) && ScopeOf(s) == ask.Target()
  }

  ghost predicate Inv(st: State) {
    && (forall key | key in st.entries :: EntryOk(st.accepted, key, st.entries[key]))
    && (forall c | c in st.calls :: CallOk(st.calls[c]))
    && (forall a | a in st.answers :: Backed(st.accepted, a))
  }

  lemma BackedStays(accepted: set<Signed>, more: set<Signed>, a: Answer)
    requires accepted <= more && Backed(accepted, a)
    ensures Backed(more, a)
  {}

  lemma CachedBacks(st: State, ask: Ask, now: int)
    requires Inv(st) && ValidScope(ask.Target())
    ensures match Resolved(st.entries, ask, now)
      case Some(decision) => Backed(st.accepted, Answer(ask, now, decision))
      case None => true
  {
    hide TrustEvaluation.EvaluateTrust, TrustEvaluation.EvaluateStatus, IsScope;
    var cached := Cached(st.entries, ask.Target());
    if cached.Some? {
      ScopeKeyInjective(ScopeOf(cached.value), ask.Target());
      if Resolved(st.entries, ask, now).Some? {
        assert Backs(cached.value, Answer(ask, now, Resolved(st.entries, ask, now).value));
      }
    }
  }

  lemma ValidSignedScope(s: Signed)
    requires ValidSigned(s)
    ensures ValidScope(ScopeOf(s))
  {
    hide IsScope, ValidParts, KeysUnique, RelationsHold;
  }

  lemma StepCalls(st: State, e: Event, c: nat)
    requires Inv(st) && c in Step(st, e).calls
    ensures CallOk(Step(st, e).calls[c])
  {
    hide TrustEvaluation.EvaluateTrust, TrustEvaluation.EvaluateStatus, IsScope, Valid, ScopeKey, Backed, Unusable,
      Primed, Fetched;
    if e.Prime? && ValidSigned(e.signed) {
      ValidSignedScope(e.signed);
    }
    assert c in st.calls ==> CallOk(st.calls[c]);
  }

  lemma StepEntries(st: State, e: Event, key: Text)
    requires Inv(st) && key in Step(st, e).entries
    ensures EntryOk(Step(st, e).accepted, key, Step(st, e).entries[key])
  {
    hide TrustEvaluation.EvaluateTrust, TrustEvaluation.EvaluateStatus, IsScope, Valid, ScopeKey, Backed, Unusable;
    assert key in st.entries ==> EntryOk(st.accepted, key, st.entries[key]);
    if e.Verify? && e.call in st.calls {
      assert CallOk(st.calls[e.call]);
    }
  }

  lemma StepInv(st: State, e: Event)
    requires Inv(st)
    ensures Inv(Step(st, e))
  {
    hide Step, EntryOk, CallOk, Backed;
    var next := Step(st, e);
    AcceptedGrows(st, e);
    forall a | a in next.answers ensures Backed(next.accepted, a) {
      if a in st.answers {
        BackedStays(st.accepted, next.accepted, a);
      } else {
        NewAnswerBacked(st, e, a);
      }
    }
    forall c | c in next.calls ensures CallOk(next.calls[c]) {
      StepCalls(st, e, c);
    }
    forall key | key in next.entries ensures EntryOk(next.accepted, key, next.entries[key]) {
      StepEntries(st, e, key);
    }
  }

  lemma AcceptedGrows(st: State, e: Event)
    ensures st.accepted <= Step(st, e).accepted
  {}

  lemma NewAnswerBacked(st: State, e: Event, a: Answer)
    requires Inv(st) && a in Step(st, e).answers && a !in st.answers
    ensures Backed(Step(st, e).accepted, a)
  {
    hide TrustEvaluation.EvaluateTrust, TrustEvaluation.EvaluateStatus, IsScope, Valid, ScopeKey;
    match e
    case Begin(call, ask, now) => CachedBacks(st, ask, now);
    case Verify(call, ok, clock) =>
      var c := st.calls[call];
      assert CallOk(c);
      var accepted := Step(st, e).accepted;
      if ok && Fresh(c.signed.snapshot, c.now) && Stored(st.entries, c.ask.Target(), c.signed).Some? {
        assert c.signed in accepted && Backs(c.signed, a);
      }
    case _ =>
  }

  lemma {:induction false} RunInv(st: State, events: seq<Event>)
    requires Inv(st)
    ensures Inv(Run(st, events))
    decreases |events|
  {
    hide Step, Inv;
    if |events| > 0 {
      StepInv(st, events[0]);
      RunInv(Step(st, events[0]), events[1..]);
    }
  }

  /** However calls interleave, every verified or rejected answer comes from a snapshot the verifier
      accepted for that scope and that was fresh at the time asked for. */
  lemma AnswersAreBacked(events: seq<Event>, a: Answer)
    requires a in Run(Init(), events).answers && a.decision.kind != Indeterminate
    ensures exists s | s in Run(Init(), events).accepted ::
      && ScopeOf(s) == a.ask.Target()
      && s.snapshot.issuedAt <= a.now < s.snapshot.expiresAt
      && a.decision == a.ask.From(s.snapshot, a.now)
  {
    hide Run, Ask.From;
    RunInv(Init(), events);
    assert Backed(Run(Init(), events).accepted, a);
    var s :| s in Run(Init(), events).accepted && Backs(s, a);
  }

  // ------------------------------------------------------------ no rollback

  /** From one cached snapshot to a later one of the same scope. */
  predicate Advances(a: Signed, b: Signed) {
    || a.snapshot.sequence < b.snapshot.sequence
    || (a.snapshot.sequence == b.snapshot.sequence && a.snapshot.snapshotId == b.snapshot.snapshotId
        && a.signature == b.signature)
  }

  predicate Kept(before: Entries, after: Entries, scope: Scope) {
    Cached(before, scope).Some? ==>
      Cached(after, scope).Some? && Advances(Cached(before, scope).value, Cached(after, scope).value)
  }

  predicate Invalidates(e: Event, scope: Scope) {
    e == Event.Invalidate(scope)
  }

  lemma StepKeeps(st: State, e: Event, scope: Scope)
    requires Inv(st) && ValidScope(scope) && !Invalidates(e, scope)
    ensures Kept(st.entries, Step(st, e).entries, scope)
  {
    hide TrustEvaluation.EvaluateTrust, TrustEvaluation.EvaluateStatus, IsScope, Valid, ScopeKey, Backs, Unusable;
    match e
    case Verify(call, ok, clock) =>
      if call in st.calls {
        assert CallOk(st.calls[call]);
        if !st.calls[call].Loading? {
          ScopeKeyInjective(ScopeOf(st.calls[call].signed), scope);
        }
      }
    case Invalidate(other) =>
      if ValidScope(other) {
        ScopeKeyInjective(other, scope);
      }
    case _ =>
  }

  /** In every interleaving without an invalidation of the scope, its cached snapshot stays, its
      sequence never falls, and an unchanged sequence keeps the same id and signature. */
  lemma {:induction false} NeverRollsBack(st: State, events: seq<Event>, scope: Scope)
    requires Inv(st) && ValidScope(scope)
    requires forall e | e in events :: !Invalidates(e, scope)
    ensures Kept(st.entries, Run(st, events).entries, scope)
    decreases |events|
  {
    hide Step, Inv, Cached, IsScope;
    if |events| > 0 {
      assert events[0] in events;
      StepKeeps(st, events[0], scope);
      StepInv(st, events[0]);
      NeverRollsBack(Step(st, events[0]), events[1..], scope);
    }
  }

  // ---------------------------------------------------------- the offline cache

  /** `OfflineTrustStatusCache.prime` from the verifier's answer to its end: one slot, whatever the scope. */
  function OfflinePrimed(slot: Option<Signed>, signed: Signed, ok: bool, clock: int):
    (Option<Signed>, Result<(), CacheError>)
  {
    if !ok then (slot, Err(SignatureInvalid))
    else if signed.snapshot.issuedAt > clock || signed.snapshot.expiresAt <= clock then (slot, Err(OutOfDate))
    else if slot.Some? && RollsBack(slot.value, signed) then (slot, Err(Rollback))
    else (Some(signed), Ok(()))
  }

  class OfflineTrustStatusCache {
    var snapshot: Option<Signed>

    constructor ()
      ensures snapshot == None
    {
      snapshot := None;
    }

    method FinishPrime(signed: Signed, ok: bool, clock: int) returns (result: Result<(), CacheError>)
      modifies this
      ensures (snapshot, result) == OfflinePrimed(old(snapshot), signed, ok, clock)
    {
      if !ok {
        return Err(SignatureInvalid);
      }
      if signed.snapshot.issuedAt > clock || signed.snapshot.expiresAt <= clock {
        return Err(OutOfDate);
      }
      if snapshot.Some? && RollsBack(snapshot.value, signed) {
        return Err(Rollback);
      }
      snapshot := Some(signed);
      result := Ok(());
    }
  }

  datatype Attempt = Attempt(signed: Signed, ok: bool, clock: int)

  function PrimeAll(slot: Option<Signed>, attempts: seq<Attempt>): Option<Signed>
    decreases |attempts|
  {
    if |attempts| == 0 then slot
    else PrimeAll(OfflinePrimed(slot, attempts[0].signed, attempts[0].ok, attempts[0].clock).0, attempts[1..])
  }

  /** The offline cache never rolls back, and it holds nothing the verifier refused. */
  lemma {:induction false} OfflineNeverRollsBack(slot: Option<Signed>, attempts: seq<Attempt>)
    ensures slot.Some? ==> PrimeAll(slot, attempts).Some? && Advances(slot.value, PrimeAll(slot, attempts).value)
    ensures PrimeAll(slot, attempts) == slot
         || exists a | a in attempts :: a.ok && PrimeAll(slot, attempts) == Some(a.signed)
    decreases |attempts|
  {
    if |attempts| > 0 {
      var first := attempts[0];
      assert first in attempts;
      var next := OfflinePrimed(slot, first.signed, first.ok, first.clock).0;
      OfflineNeverRollsBack(next, attempts[1..]);
      assert forall a | a in attempts[1..] :: a in attempts;
    }
  }
}
