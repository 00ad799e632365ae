/**
 The platform store: tenant-scoped records, and operations that run once per idempotency key.

 Values are taken as equal to their clones.  A call of `runIdempotent` waits for its operation, or
 for the one it joined, so calls interleave there; operations do not call the store re-entrantly.
 */
module PlatformStore {
  import opened Strings
  import opened Wrappers

  // ---------------------------------------------------------------- scoped ids

  datatype Locator = Locator(tenantId: Text, kind: Text, id: Text)

  /** `^[A-Za-z0-9._:-]{1,128}$` */
  predicate IsKey(t: Text) {
    && 1 <= |t| <= 128
    && forall i | 0 <= i < |t| ::
      IsDigit(t[i]) || 0x41 <= t[i] <= 0x5a || 0x61 <= t[i] <= 0x7a || t[i] in {0x2e, 0x5f, 0x3a, 0x2d}
  }

  /** The patterns of tenant ids, kinds and keys admit no NUL. */
  predicate ValidLocator(l: Locator) {
    NoNul(l.tenantId) && NoNul(l.kind) && NoNul(l.id)
  }

  /** What `put` and `get` test first, for the kinds there are. */
  lemma KeysMakeLocators(l: Locator)
    requires IsKey(l.tenantId) && NoNul(l.kind) && IsKey(l.id)
    ensures ValidLocator(l)
  {}

  function ScopedId(l: Locator): Text {
    Join2(l.tenantId, Join2(l.kind, l.id))
  }

  lemma ScopedIdInjective(a: Locator, b: Locator)
    requires ValidLocator(a) && ValidLocator(b)
    ensures ScopedId(a) == ScopedId(b) <==> a == b
  {
    Join2Injective(a.tenantId, Join2(a.kind, a.id), b.tenantId, Join2(b.kind, b.id));
    Join2Injective(a.kind, a.id, b.kind, b.id);
  }

  function Prefix(tenantId: Text, kind: Text): Text {
    Join2(tenantId, Join2(kind, []))
  }

  /** The prefix test of `list` picks exactly the records of the tenant and kind. */
  lemma PrefixExactly(l: Locator, tenantId: Text, kind: Text)
    requires ValidLocator(l) && NoNul(tenantId) && NoNul(kind)
    ensures Prefix(tenantId, kind) <= ScopedId(l) <==> l.tenantId == tenantId && l.kind == kind
  {
    if l.tenantId == tenantId && l.kind == kind {
      assert ScopedId(l) == Prefix(tenantId, kind) + l.id;
    }
    if Prefix(tenantId, kind) <= ScopedId(l) {
      var rest := ScopedId(l)[|Prefix(tenantId, kind)|..];
      assert ScopedId(l) == Prefix(tenantId, kind) + rest;
      assert ScopedId(l) == Join2(tenantId, Join2(kind, rest));
      Join2Injective(l.tenantId, Join2(l.kind, l.id), tenantId, Join2(kind, rest));
      Join2Injective(l.kind, l.id, kind, rest);
    }
  }

  datatype StoreError = TenantInvalid

  type Records<V> = map<Text, V>

  /** Every key of the map comes from a valid locator. */
  ghost predicate Scoped<V>(records: Records<V>) {
    forall key | key in records :: FromLocator(key)
  }

  ghost predicate FromLocator(key: Text) {
    exists l :: ValidLocator(l) && key == ScopedId(l)
  }

  function Get<V>(records: Records<V>, l: Locator): Option<V> {
    if ScopedId(l) in records then Some(records[ScopedId(l)]) else None
  }

  function Put<V>(records: Records<V>, l: Locator, v: V): Records<V> {
    records[ScopedId(l) := v]
  }

  function List<V>(records: Records<V>, tenantId: Text, kind: Text): Records<V> {
    map key | key in records && Prefix(tenantId, kind) <= key :: records[key]
  }

  /** A record put is what its locator reads back, and no other locator of any tenant sees a change. */
  lemma GetAfterPut<V>(records: Records<V>, l: Locator, v: V, other: Locator)
    requires ValidLocator(l) && ValidLocator(other) && Scoped(records)
    ensures Get(Put(records, l, v), other) == if other == l then Some(v) else Get(records, other)
    ensures Scoped(Put(records, l, v))
  {
    ScopedIdInjective(l, other);
    assert FromLocator(ScopedId(l));
  }

  /** A listing holds exactly the records of its tenant and kind. */
  lemma ListExactly<V>(records: Records<V>, tenantId: Text, kind: Text, l: Locator)
    requires ValidLocator(l) && NoNul(tenantId) && NoNul(kind)
    ensures Get(List(records, tenantId, kind), l)
         == if l.tenantId == tenantId && l.kind == kind then Get(records, l) else None
  {
    PrefixExactly(l, tenantId, kind);
  }

  // -------------------------------------------------------------- idempotency

  /** How an operation ended; a result that cannot be cloned makes its caller throw. */
  datatype Status = Running | Succeeded(value: Text, cloneable: bool) | Failed

  datatype Execution = Execution(key: Text, requestHash: Text, status: Status)

  /** The map entry: the request hash and the execution whose promise it holds. */
  datatype Entry = Entry(requestHash: Text, execution: nat)

  datatype Role = Owner | Joiner

  datatype Call = Call(role: Role, key: Text, execution: nat)

  datatype Returned = Returned(key: Text, requestHash: Text, value: Text, replayed: bool)

  datatype State = State(
    entries: map<Text, Entry>, executions: seq<Execution>, calls: map<nat, Call>, returned: seq<Returned>)

  datatype Begun = Conflict | Joins(execution: nat) | Starts

  /** `runIdempotent` up to its wait. */
  function Begin(entries: map<Text, Entry>, key: Text, requestHash: Text): Begun {
    if key in entries then
      if entries[key].requestHash != requestHash then Conflict else Joins(entries[key].execution)
    else Starts
  }

  /** After the wait: the entry goes when the owner fails. */
  function Settled(entries: map<Text, Entry>, role: Role, key: Text, status: Status): map<Text, Entry> {
    if role == Owner && !Kept(status) then entries - {key} else entries
  }

  predicate Kept(status: Status) {
    status.Succeeded? && status.cloneable
  }

  class InMemoryPlatformStore<V> {
    var records: Records<V>
    var idempotency: map<Text, Entry>

    constructor ()
      ensures records == map[] && idempotency == map[]
    {
      records, idempotency := map[], map[];
    }

    /** `put` of a record that is parsed and belongs to the tenant. */
    method PutRecord(l: Locator, v: V) returns (ok: bool)
      modifies this`records
      ensures ok <==> IsKey(l.tenantId) && IsKey(l.id)
      ensures records == if ok then Put(old(records), l, v) else old(records)
    {
      if !IsKey(l.tenantId) || !IsKey(l.id) {
        return false;
      }
      records := records[ScopedId(l) := v];
      ok := true;
    }

    method GetRecord(l: Locator) returns (r: Result<Option<V>, StoreError>)
      ensures r == if IsKey(l.tenantId) && IsKey(l.id) then Ok(Get(records, l)) else Err(TenantInvalid)
    {
      if !IsKey(l.tenantId) || !IsKey(l.id) {
        return Err(TenantInvalid);
      }
      r := Ok(if ScopedId(l) in records then Some(records[ScopedId(l)]) else None);
    }

    /** `execution` is the promise the operation would return. */
    method BeginIdempotent(key: Text, requestHash: Text, execution: nat) returns (begun: Begun)
      modifies this`idempotency
      ensures begun == Begin(old(idempotency), key, requestHash)
      ensures idempotency == if begun == Starts then old(idempotency)[key := Entry(requestHash, execution)]
        else old(idempotency)
    {
      if key in idempotency {
        var existing := idempotency[key];
        if existing.requestHash != requestHash {
          return Conflict;
        }
        return Joins(existing.execution);
      }
      idempotency := idempotency[key := Entry(requestHash, execution)];
      begun := Starts;
    }

    method FinishIdempotent(role: Role, key: Text, status: Status) returns (result: Option<Text>)
      modifies this`idempotency
      ensures idempotency == Settled(old(idempotency), role, key, status)
      ensures result == if Kept(status) then Some(status.value) else None
    {
      if status.Succeeded? && status.cloneable {
        return Some(status.value);
      }
      if role == Owner {
        idempotency := idempotency - {key};
      }
      result := None;
    }
  }

  /** An operation starts exactly for a free key; a taken one is joined for the same request only. */
  lemma BeginExactly(entries: map<Text, Entry>, key: Text, requestHash: Text)
    ensures
      var begun := Begin(entries, key, requestHash);
      && (begun.Starts? <==> key !in entries)
      && (begun.Conflict? <==> key in entries && entries[key].requestHash != requestHash)
      && (begun.Joins? ==> key in entries && begun.execution == entries[key].execution)
  {}

  datatype Event =
    | Start(call: nat, key: Text, requestHash: Text)
    | Settle(execution: nat, status: Status)
    | Resume(call: nat)

  function Started(st: State, call: nat, key: Text, requestHash: Text): State {
    match Begin(st.entries, key, requestHash)
    case Conflict => st
    case Joins(execution) => st.(calls := st.calls[call := Call(Joiner, key, execution)])
    case Starts =>
      var execution := |st.executions|;
      State(st.entries[key := Entry(requestHash, execution)],
            st.executions + [Execution(key, requestHash, Running)],
            st.calls[call := Call(Owner, key, execution)], st.returned)
  }

  function Resumed(st: State, call: nat, c: Call, execution: Execution): State {
    State(Settled(st.entries, c.role, c.key, execution.status), st.executions, st.calls - {call},
          if Kept(execution.status)
          then st.returned + [Returned(c.key, execution.requestHash, execution.status.value, c.role == Joiner)]
          else st.returned)
  }

  /** One step; an event that does not fit the state changes nothing. */
  function Step(st: State, e: Event): State {
    match e
    case Start(call, key, requestHash) => if call in st.calls then st else Started(st, call, key, requestHash)
    case Settle(execution, status) =>
      if execution >= |st.executions| || st.executions[execution].status != Running || status == Running then st
      else st.(executions := st.executions[execution := st.executions[execution].(status := status)])
    case Resume(call) =>
      if call !in st.calls || st.calls[call].execution >= |st.executions|
         || st.executions[st.calls[call].execution].status == Running then st
      else Resumed(st, call, st.calls[call], st.executions[st.calls[call].execution])
  }

  /** A caller gets its result exactly when its operation has succeeded with one that can be cloned, and it is
      told whether it joined; the entry goes only when the owner gets none. */
  lemma ResumeExactly(st: State, call: nat)
    requires call in st.calls && st.calls[call].execution < |st.executions|
    requires !st.executions[st.calls[call].execution].status.Running?
    ensures
      var (next, c) := (Step(st, Resume(call)), st.calls[call]);
      var execution := st.executions[c.execution];
      var kept := execution.status.Succeeded? && execution.status.cloneable;
      && next.executions == st.executions && next.calls == st.calls - {call}
      && next.entries == (if c.role.Owner? && !kept then st.entries - {c.key} else st.entries)
      && next.returned == (if kept
                           then st.returned + [Returned(c.key, execution.requestHash, execution.status.value,
                             c.role.Joiner?)]
                           else st.returned)
  {}

  /** An operation that runs may end, once. */
  lemma SettleExactly(st: State, i: nat, status: Status)
    requires i < |st.executions| && !status.Running?
    ensures
      var (next, e) := (Step(st, Settle(i, status)), st.executions[i]);
      && next.entries == st.entries && next.calls == st.calls && next.returned == st.returned
      && next.executions == (if e.status.Running?
                             then st.executions[i := Execution(e.key, e.requestHash, status)] else st.executions)
  {}

  /** A call starts its operation, joins one or is refused. */
  lemma StartExactly(st: State, call: nat, key: Text, requestHash: Text)
    requires call !in st.calls
    ensures
      var next := Step(st, Start(call, key, requestHash));
      if key !in st.entries then
        next == State(st.entries[key := Entry(requestHash, |st.executions|)],
                      st.executions + [Execution(key, requestHash, Running)],
                      st.calls[call := Call(Owner, key, |st.executions|)], st.returned)
      else if st.entries[key].requestHash == requestHash then
        next == State(st.entries, st.executions, st.calls[call := Call(Joiner, key, st.entries[key].execution)],
          st.returned)
      else next == st
  {}

  function Init(): State {
    State(map[], [], map[], [])
  }

  function Run(st: State, events: seq<Event>): State
    decreases |events|
  {
    if |events| == 0 then st else Run(Step(st, events[0]), events[1..])
  }

  // -------------------------------------------------------------- invariant

  /** The entry of a key points at this execution. */
  predicate PointsAt(st: State, key: Text, execution: nat) {
    key in st.entries && st.entries[key].execution == execution
  }

  predicate EntryOk(st: State, key: Text) {
    key in st.entries ==>
      && st.entries[key].execution < |st.executions|
      && st.executions[st.entries[key].execution].key == key
      && st.executions[st.entries[key].execution].requestHash == st.entries[key].requestHash
  }

  /** An execution that runs, or whose result was kept, is the one its key's entry points at. */
  predicate ExecutionOk(st: State, i: nat) {
    i < |st.executions| && (st.executions[i].status.Running? || Kept(st.executions[i].status)) ==>
      PointsAt(st, st.executions[i].key, i)
  }

  predicate CallOk(st: State, c: Call) {
    && c.execution < |st.executions| && st.executions[c.execution].key == c.key
    && (c.role == Owner ==> PointsAt(st, c.key, c.execution))
  }

  /** A result handed out is the kept result of the entry's execution. */
  predicate ReturnedOk(st: State, r: Returned) {
    && r.key in st.entries && st.entries[r.key].execution < |st.executions|
    && var execution := st.executions[st.entries[r.key].execution];
    && Kept(execution.status) && execution.status.value == r.value && execution.requestHash == r.requestHash
  }

  predicate OneOwner(c: Call, d: Call) {
    !(c.role == Owner && d.role == Owner && c.execution == d.execution)
  }

  ghost predicate Inv(st: State) {
    && (forall key | key in st.entries :: EntryOk(st, key))
    && (forall i: nat | i < |st.executions| :: ExecutionOk(st, i))
    && (forall c | c in st.calls :: CallOk(st, st.calls[c]))
    && (forall c, d | c in st.calls && d in st.calls && c != d :: OneOwner(st.calls[c], st.calls[d]))
    && (forall r | r in st.returned :: ReturnedOk(st, r))
  }

  lemma StartKeeps(st: State, call: nat, key: Text, requestHash: Text)
    requires Inv(st) && call !in st.calls
    ensures Inv(Started(st, call, key, requestHash))
  {
    hide Kept, ReturnedOk, CallOk, OneOwner;
    var next := Started(st, call, key, requestHash);
    assert key in st.entries ==> EntryOk(st, key);
    forall k | k in next.entries ensures EntryOk(next, k) {
      assert k in st.entries ==> EntryOk(st, k);
    }
    forall i: nat | i < |next.executions| ensures ExecutionOk(next, i) {
      assert i < |st.executions| ==> ExecutionOk(st, i);
    }
    StartKeepsCalls(st, call, key, requestHash);
    StartKeepsReturned(st, call, key, requestHash);
  }

  lemma StartKeepsCalls(st: State, call: nat, key: Text, requestHash: Text)
    requires Inv(st) && call !in st.calls
    ensures
      var next := Started(st, call, key, requestHash);
      && (forall c | c in next.calls :: CallOk(next, next.calls[c]))
      && (forall c, d | c in next.calls && d in next.calls && c != d :: OneOwner(next.calls[c], next.calls[d]))
  {
    hide Kept, ReturnedOk, ExecutionOk;
    var next := Started(st, call, key, requestHash);
    assert key in st.entries ==> EntryOk(st, key);
    forall c | c in next.calls ensures CallOk(next, next.calls[c]) {
      assert c in st.calls ==> CallOk(st, st.calls[c]);
    }
    forall c, d | c in next.calls && d in next.calls && c != d ensures OneOwner(next.calls[c], next.calls[d]) {
      assert c in st.calls && d in st.calls ==> OneOwner(st.calls[c], st.calls[d]);
      assert c in st.calls ==> CallOk(st, st.calls[c]);
      assert d in st.calls ==> CallOk(st, st.calls[d]);
    }
  }

  lemma StartKeepsReturned(st: State, call: nat, key: Text, requestHash: Text)
    requires Inv(st) && call !in st.calls
    ensures forall r | r in Started(st, call, key, requestHash).returned ::
      ReturnedOk(Started(st, call, key, requestHash), r)
  {
    hide EntryOk, ExecutionOk, CallOk, OneOwner;
    forall r | r in st.returned ensures ReturnedOk(Started(st, call, key, requestHash), r) {
      assert ReturnedOk(st, r);
    }
  }

  lemma SettleKeeps(st: State, e: Event)
    requires Inv(st) && e.Settle?
    ensures Inv(Step(st, e))
  {
    var next := Step(st, e);
    forall key | key in next.entries ensures EntryOk(next, key) {
      assert EntryOk(st, key);
    }
    forall i: nat | i < |next.executions| ensures ExecutionOk(next, i) {
      assert ExecutionOk(st, i);
    }
    forall c | c in next.calls ensures CallOk(next, next.calls[c]) {
      assert CallOk(st, st.calls[c]);
    }
    forall c, d | c in next.calls && d in next.calls && c != d ensures OneOwner(next.calls[c], next.calls[d]) {
      assert OneOwner(st.calls[c], st.calls[d]);
    }
    forall r | r in next.returned ensures ReturnedOk(next, r) {
      assert ReturnedOk(st, r);
    }
  }

  lemma ResumeKeeps(st: State, call: nat)
    requires Inv(st) && call in st.calls
    requires CallOk(st, st.calls[call]) && st.executions[st.calls[call].execution].status != Running
    ensures Inv(Resumed(st, call, st.calls[call], st.executions[st.calls[call].execution]))
  {
    hide ReturnedOk;
    var me := st.calls[call];
    var next := Resumed(st, call, me, st.executions[me.execution]);
    assert ExecutionOk(st, me.execution);
    forall key | key in next.entries ensures EntryOk(next, key) {
      assert EntryOk(st, key);
    }
    forall i: nat | i < |next.executions| ensures ExecutionOk(next, i) {
      assert ExecutionOk(st, i);
    }
    forall c | c in next.calls ensures CallOk(next, next.calls[c]) {
      assert CallOk(st, st.calls[c]) && OneOwner(st.calls[c], me);
    }
    forall c, d | c in next.calls && d in next.calls && c != d ensures OneOwner(next.calls[c], next.calls[d]) {
      assert OneOwner(st.calls[c], st.calls[d]);
    }
    ResumeKeepsReturned(st, call);
  }

  lemma ResumeKeepsReturned(st: State, call: nat)
    requires Inv(st) && call in st.calls
    requires CallOk(st, st.calls[call]) && st.executions[st.calls[call].execution].status != Running
    ensures
      var next := Resumed(st, call, st.calls[call], st.executions[st.calls[call].execution]);
      forall r | r in next.returned :: ReturnedOk(next, r)
  {
    hide OneOwner;
    var me := st.calls[call];
    var next := Resumed(st, call, me, st.executions[me.execution]);
    assert ExecutionOk(st, me.execution) && EntryOk(st, me.key);
    forall r | r in next.returned ensures ReturnedOk(next, r) {
      assert r in st.returned ==> ReturnedOk(st, r);
    }
  }

  lemma StepKeeps(st: State, e: Event)
    requires Inv(st)
    ensures Inv(Step(st, e))
  {
    hide Inv, Started, Resumed, CallOk;
    match e
    case Start(call, key, requestHash) =>
      if call !in st.calls {
        StartKeeps(st, call, key, requestHash);
      }
    case Settle(_, _) => SettleKeeps(st, e);
    case Resume(call) =>
      if call in st.calls {
        CallIsOk(st, call);
        if st.executions[st.calls[call].execution].status != Running {
          ResumeKeeps(st, call);
        }
      }
  }

  lemma CallIsOk(st: State, call: nat)
    requires Inv(st) && call in st.calls
    ensures CallOk(st, st.calls[call]) && st.calls[call].execution < |st.executions|
  {}

  lemma InitInv()
    ensures Inv(Init())
  {}

  lemma {:induction false} RunKeeps(st: State, events: seq<Event>)
    requires Inv(st)
    ensures Inv(Run(st, events))
    decreases |events|
  {
    hide Step, Inv;
    if |events| > 0 {
      StepKeeps(st, events[0]);
      RunKeeps(Step(st, events[0]), events[1..]);
    }
  }

  // ---------------------------------------------------------------- theorems

  /** However calls interleave, at most one execution of a key is in flight, and at most one ever
      succeeds with a result that can be handed out; none runs beside a success. */
  lemma RunsOncePerKey(events: seq<Event>, i: nat, j: nat)
    requires
      var executions := Run(Init(), events).executions;
      && i < |executions| && j < |executions| && executions[i].key == executions[j].key
      && (executions[i].status.Running? || Kept(executions[i].status))
      && (executions[j].status.Running? || Kept(executions[j].status))
    ensures i == j
  {
    hide Run, EntryOk, CallOk, ReturnedOk, OneOwner;
    InitInv();
    RunKeeps(Init(), events);
    assert ExecutionOk(Run(Init(), events), i) && ExecutionOk(Run(Init(), events), j);
  }

  /** All callers of a key that get a result get the same one, for the same request. */
  lemma CallersAgree(events: seq<Event>, a: Returned, b: Returned)
    requires a in Run(Init(), events).returned && b in Run(Init(), events).returned && a.key == b.key
    ensures a.value == b.value && a.requestHash == b.requestHash
  {
    hide Run, EntryOk, CallOk, ExecutionOk, OneOwner;
    InitInv();
    RunKeeps(Init(), events);
    assert ReturnedOk(Run(Init(), events), a) && ReturnedOk(Run(Init(), events), b);
  }

  /** While a key is taken, another request hash is refused and changes nothing; once a result was
      handed out the key stays taken for good. */
  lemma ConflictsRefused(events: seq<Event>, call: nat, key: Text, requestHash: Text)
    requires
      var st := Run(Init(), events);
      (key in st.entries && st.entries[key].requestHash != requestHash)
      || exists r | r in st.returned :: r.key == key && r.requestHash != requestHash
    ensures
      var st := Run(Init(), events);
      Begin(st.entries, key, requestHash) == Conflict && Step(st, Start(call, key, requestHash)) == st
  {
    hide Run, CallOk, ExecutionOk, OneOwner;
    InitInv();
    RunKeeps(Init(), events);
    var st := Run(Init(), events);
    if r :| r in st.returned && r.key == key && r.requestHash != requestHash {
      assert ReturnedOk(st, r) && EntryOk(st, key);
    }
  }

  /** An execution of a key with a later one. */
  predicate Superseded(executions: seq<Execution>, i: nat) {
    exists j :: i < j < |executions| && executions[j].key == executions[i].key
  }

  predicate Lost(status: Status) {
    !status.Running? && !Kept(status)
  }

  predicate LostOnes(st: State) {
    forall i | 0 <= i < |st.executions| && Superseded(st.executions, i) :: Lost(st.executions[i].status)
  }

  lemma StepLost(st: State, e: Event)
    requires Inv(st) && LostOnes(st)
    ensures LostOnes(Step(st, e))
  {
    hide Kept, EntryOk, CallOk, ReturnedOk, OneOwner;
    var next := Step(st, e);
    forall i: nat | i < |next.executions| && Superseded(next.executions, i) ensures Lost(next.executions[i].status) {
      var j :| i < j < |next.executions| && next.executions[j].key == next.executions[i].key;
      assert ExecutionOk(st, i);
      if j < |st.executions| {
        assert Superseded(st.executions, i);
      }
    }
  }

  lemma {:induction false} RunLost(st: State, events: seq<Event>)
    requires Inv(st) && LostOnes(st)
    ensures LostOnes(Run(st, events))
    decreases |events|
  {
    hide Step, Inv, LostOnes;
    if |events| > 0 {
      StepKeeps(st, events[0]);
      StepLost(st, events[0]);
      RunLost(Step(st, events[0]), events[1..]);
    }
  }

  /** An operation runs again under its key only after it failed, or succeeded with a result that could not
      be cloned, whatever became of other keys: so it succeeds once, but for such results. */
  lemma SucceedsOnce(events: seq<Event>, i: nat, j: nat)
    requires
      var executions := Run(Init(), events).executions;
      i < j < |executions| && executions[i].key == executions[j].key
    ensures
      var status := Run(Init(), events).executions[i].status;
      status.Failed? || (status.Succeeded? && !status.cloneable)
  {
    hide Run;
    InitInv();
    RunLost(Init(), events);
    assert Superseded(Run(Init(), events).executions, i);
  }

  /** A result that cannot be cloned loses the entry, and the operation succeeds a second time. */
  lemma UncloneableRunsAgain(key: Text, hash: Text, v: Text) returns (events: seq<Event>)
    ensures
      var executions := Run(Init(), events).executions;
      && |executions| == 2 && executions[0].key == executions[1].key == key
      && executions[0].status.Succeeded? && executions[1].status.Succeeded?
  {
    var a, b, c, d := Start(0, key, hash), Settle(0, Succeeded(v, false)), Resume(0), Settle(1, Succeeded(v, true));
    events := [a, b, c, a, d];
    var s1 := Step(Init(), a);
    var s2 := Step(s1, b);
    var s3 := Step(s2, c);
    var s4 := Step(s3, a);
    assert events[1..] == [b, c, a, d] && [b, c, a, d][1..] == [c, a, d] && [c, a, d][1..] == [a, d]
      && [a, d][1..] == [d];
    assert Run(s4, [d]) == Step(s4, d);
    assert Run(s3, [a, d]) == Step(s4, d);
    assert Run(s2, [c, a, d]) == Step(s4, d);
  }
}
