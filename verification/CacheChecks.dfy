/** What the snapshot caches store, answer and refuse, and that every question is answered once. */
module CacheChecks {
  import opened Strings
  import opened Wrappers
  import opened TrustSnapshot
  import opened TrustEvaluation
  import opened SnapshotCache

  // --------------------------------------------------------------- one cache

  /** Tenant and jurisdiction, with a NUL between them. */
  function KeyText(scope: Scope): Text {
    scope.tenantId + [0] + scope.jurisdiction
  }

  lemma KeyTextIs(scope: Scope)
    ensures ScopeKey(scope) == KeyText(scope)
  {}

  lemma ScopeExactly(scope: Scope)
    ensures ValidScope(scope) <==> IsScope(scope.tenantId) && IsScope(scope.jurisdiction)
  {
    hide IsScope;
  }

  /** A snapshot of a higher sequence, or the very snapshot of the same one. */
  predicate Follows(next: Signed, previous: Signed) {
    || next.snapshot.sequence > previous.snapshot.sequence
    || (next.snapshot.sequence == previous.snapshot.sequence
        && next.snapshot.snapshotId == previous.snapshot.snapshotId && next.signature == previous.signature)
  }

  predicate MayStore(entries: Entries, scope: Scope, next: Signed) {
    KeyText(scope) in entries ==> Follows(next, entries[KeyText(scope)])
  }

  lemma StoreExactly(entries: Entries, scope: Scope, next: Signed)
    ensures Stored(entries, scope, next).Some? <==> MayStore(entries, scope, next)
    ensures MayStore(entries, scope, next) ==> Stored(entries, scope, next) == Some(entries[KeyText(scope) := next])
  {
    KeyTextIs(scope);
  }

  predicate InForce(s: Snapshot, now: int) {
    s.issuedAt <= now && now < s.expiresAt
  }

  /** `prime` keeps a snapshot exactly when the verifier accepts it, it is in force, and it follows what is kept
      for its own scope; otherwise it changes nothing. */
  lemma PrimeExactly(entries: Entries, signed: Signed, ok: bool, clock: int)
    ensures
      var (next, r, own) := (Primed(entries, signed, ok, clock).0, Primed(entries, signed, ok, clock).1,
                             Scope(signed.snapshot.tenantId, signed.snapshot.jurisdiction));
      && (r.Ok? <==> ok && InForce(signed.snapshot, clock) && MayStore(entries, own, signed))
      && next == (if r.Ok? then entries[KeyText(own) := signed] else entries)
      && (r.Ok? ==> r.value == signed)
      && (r == Err(SignatureInvalid) <==> !ok)
      && (r == Err(OutOfDate) <==> ok && !InForce(signed.snapshot, clock))
  {
    StoreExactly(entries, ScopeOf(signed), signed);
  }

  /** The evidence a failed fetch shows. */
  function Shown(s: Option<Signed>): Option<(Text, int)> {
    match s
    case None => None
    case Some(signed) => Some((signed.snapshot.snapshotId, signed.snapshot.expiresAt))
  }

  lemma UnusableExactly(code: Code, s: Option<Signed>)
    ensures Unusable(code, s) == Decision(Indeterminate, code, Shown(s))
  {}

  /** A fetch answers from the new snapshot exactly when it is accepted, in force and follows the one kept, and
      then keeps it; otherwise the answer is indeterminate, and nothing changes. */
  lemma FetchExactly(entries: Entries, ask: Ask, now: int, stale: Option<Signed>, signed: Signed, ok: bool)
    ensures
      var (next, answer) := Fetched(entries, ask, now, stale, signed, ok);
      var fits := ok && InForce(signed.snapshot, now) && MayStore(entries, ask.Target(), signed);
      && next == (if fits then entries[KeyText(ask.Target()) := signed] else entries)
      && answer == (if fits then ask.From(signed.snapshot, now)
                    else if ok && !InForce(signed.snapshot, now) then
                      Decision(Indeterminate, SnapshotStale, Shown(Some(signed)))
                    else Decision(Indeterminate, SnapshotInvalid, Shown(stale)))
  {
    hide Ask.From;
    StoreExactly(entries, ask.Target(), signed);
  }

  /** What is kept for the scope asked about. */
  function Kept(entries: Entries, ask: Ask): Option<Signed> {
    if KeyText(ask.Target()) in entries then Some(entries[KeyText(ask.Target())]) else None
  }

  /** A question is answered at once exactly when the snapshot kept for its scope is in force. */
  lemma ResolveExactly(entries: Entries, ask: Ask, now: int)
    ensures Resolved(entries, ask, now).Some? <==>
      !ask.Refresh? && Kept(entries, ask).Some? && InForce(Kept(entries, ask).value.snapshot, now)
    ensures Resolved(entries, ask, now).Some? ==>
      Resolved(entries, ask, now).value == ask.From(Kept(entries, ask).value.snapshot, now)
    ensures Stale(entries, ask) == match ask
      case Refresh(_) => None
      case _ => Kept(entries, ask)
  {
    hide Ask.From;
    KeyTextIs(ask.Target());
  }

  /** The offline cache keeps one snapshot, under the same conditions whatever its scope. */
  lemma OfflinePrimeExactly(slot: Option<Signed>, signed: Signed, ok: bool, clock: int)
    ensures
      var (next, r) := OfflinePrimed(slot, signed, ok, clock);
      && (r.Ok? <==> ok && InForce(signed.snapshot, clock) && (slot.Some? ==> Follows(signed, slot.value)))
      && next == (if r.Ok? then Some(signed) else slot)
      && (r == Err(SignatureInvalid) <==> !ok)
      && (r == Err(OutOfDate) <==> ok && !InForce(signed.snapshot, clock))
  {}

  // ------------------------------------------------------------------- steps

  /** A question waits for the source, unless the snapshot kept answers it at once. */
  lemma BeginExactly(st: State, call: nat, ask: Ask, now: int)
    requires call !in st.calls && ValidScope(ask.Target())
    ensures
      var (next, at) := (Step(st, Begin(call, ask, now)), Resolved(st.entries, ask, now));
      && next.entries == st.entries && next.accepted == st.accepted
      && next.calls == (if at.Some? then st.calls
                        else st.calls[call := Loading(ask, now, if ask.Refresh? then None else Kept(st.entries, ask))])
      && next.answers == (if at.Some? then st.answers + [Answer(ask, now, at.value)] else st.answers)
  {
    hide Ask.From, ValidScope, Resolved;
    ResolveExactly(st.entries, ask, now);
  }

  /** A parsed snapshot starts its verification; the verifier's answer ends it. */
  lemma PrimeStepsExactly(st: State, call: nat, signed: Signed, ok: bool, clock: int)
    requires call !in st.calls && ValidSigned(signed)
    ensures
      var waiting := Step(st, Prime(call, signed));
      var done := Step(waiting, Verify(call, ok, clock));
      && waiting == State(st.entries, st.calls[call := Priming(signed)], st.accepted, st.answers)
      && done == State(Primed(st.entries, signed, ok, clock).0, st.calls, if ok then st.accepted + {signed}
        else st.accepted,
                       st.answers)
  {
    hide ValidSigned, Primed;
    assert st.calls[call := Priming(signed)] - {call} == st.calls;
  }

  /** What the source sends goes to the verifier exactly when it is a valid snapshot of the scope asked about;
      otherwise the question is answered, with the stale snapshot as evidence. */
  lemma LoadExactly(st: State, call: nat, reply: Reply)
    requires call in st.calls && st.calls[call].Loading?
    ensures
      var (next, ask, now, stale) :=
        (Step(st, Load(call, reply)), st.calls[call].ask, st.calls[call].now, st.calls[call].stale);
      if reply.Value? && ValidSigned(reply.signed) && reply.signed.snapshot.tenantId == ask.Target().tenantId
         && reply.signed.snapshot.jurisdiction == ask.Target().jurisdiction then
        next == State(st.entries, st.calls[call := Verifying(ask, now, stale, reply.signed)], st.accepted, st.answers)
      else
        var code := match reply
          case Unavailable => RegistryUnavailable
          case Missing => SnapshotMissing
          case _ => SnapshotInvalid;
        next == State(st.entries, st.calls - {call}, st.accepted,
                      st.answers + [Answer(ask, now, Decision(Indeterminate, code, Shown(stale)))])
  {
    hide ValidSigned;
  }

  lemma VerifyExactly(st: State, call: nat, ok: bool, clock: int)
    requires call in st.calls && st.calls[call].Verifying?
    ensures
      var (next, c) := (Step(st, Verify(call, ok, clock)), st.calls[call]);
      var (entries, decision) := Fetched(st.entries, c.ask, c.now, c.stale, c.signed, ok);
      next == State(entries, st.calls - {call}, if ok then st.accepted + {c.signed} else st.accepted,
                    st.answers + [Answer(c.ask, c.now, decision)])
  {
    hide Fetched;
  }

  lemma InvalidateExactly(st: State, scope: Scope)
    requires ValidScope(scope)
    ensures Step(st, Event.Invalidate(scope))
         == State(st.entries - {KeyText(scope)}, st.calls, st.accepted, st.answers)
  {
    hide ValidScope;
    KeyTextIs(scope);
  }

  // -------------------------------------------------------- answered just once

  /** The calls that wait with a question. */
  function Open(st: State): set<nat> {
    set c | c in st.calls && !st.calls[c].Priming?
  }

  /** A question is put. */
  predicate Asks(st: State, e: Event) {
    e.Begin? && e.call !in st.calls && ValidScope(e.ask.Target())
  }

  function Asked(st: State, events: seq<Event>): nat
    decreases |events|
  {
    if |events| == 0 then 0 else (if Asks(st, events[0]) then 1 else 0) + Asked(Step(st, events[0]), events[1..])
  }

  /** One more call with a question. */
  lemma OneMoreOpen(st: State, next: State, call: nat, c: Call)
    requires call !in st.calls && next.calls == st.calls[call := c] && !c.Priming?
    ensures |Open(next)| == |Open(st)| + 1
  {
    assert Open(next) == Open(st) + {call};
  }

  lemma SameOpen(st: State, next: State)
    requires next.calls == st.calls
    ensures Open(next) == Open(st)
  {}

  lemma NotAsked(st: State, e: Event)
    requires e.Begin? && !Asks(st, e)
    ensures Step(st, e) == st
  {
    hide ValidScope, Resolved, Stale;
  }

  lemma BeginOpens(st: State, e: Event)
    requires e.Begin?
    ensures |Step(st, e).answers| + |Open(Step(st, e))|
         == |st.answers| + |Open(st)| + if Asks(st, e) then 1 else 0
  {
    hide Step, Open, ValidScope, Resolved, Kept;
    var next := Step(st, e);
    if !Asks(st, e) {
      NotAsked(st, e);
    } else {
      BeginExactly(st, e.call, e.ask, e.now);
      if Resolved(st.entries, e.ask, e.now).Some? {
        SameOpen(st, next);
      } else {
        OneMoreOpen(st, next, e.call, next.calls[e.call]);
      }
    }
  }

  lemma StepKeepsOpen(st: State, e: Event)
    requires e.Prime? || e.Invalidate?
    ensures Step(st, e).answers == st.answers && Open(Step(st, e)) == Open(st)
  {
    hide ValidScope, ValidSigned;
  }

  lemma StepCloses(st: State, e: Event)
    requires e.Load? || e.Verify?
    ensures |Step(st, e).answers| + |Open(Step(st, e))| == |st.answers| + |Open(st)|
  {
    hide ValidScope, ValidSigned, Fetched, Primed, Unusable;
    var next := Step(st, e);
    if e.call in next.calls || e.call !in Open(st) {
      assert Open(next) == Open(st);
    } else {
      assert Open(next) == Open(st) - {e.call};
    }
  }

  lemma StepAnswers(st: State, e: Event)
    ensures |Step(st, e).answers| + |Open(Step(st, e))|
         == |st.answers| + |Open(st)| + if Asks(st, e) then 1 else 0
  {
    hide Step, Open, ValidScope;
    if e.Load? || e.Verify? {
      StepCloses(st, e);
    } else if e.Begin? {
      BeginOpens(st, e);
    } else {
      StepKeepsOpen(st, e);
    }
  }

  /** However calls interleave, every question is answered once, or still waits. */
  lemma {:induction false} AnsweredOnce(st: State, events: seq<Event>)
    ensures |Run(st, events).answers| + |Open(Run(st, events))| == |st.answers| + |Open(st)| + Asked(st, events)
    decreases |events|
  {
    hide Step, Open, Asks;
    if |events| > 0 {
      StepAnswers(st, events[0]);
      AnsweredOnce(Step(st, events[0]), events[1..]);
    }
  }
}
