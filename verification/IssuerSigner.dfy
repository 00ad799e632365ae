/**
 The institutional issuer signer.  A call checks the key and two approvals, reserves its operation,
 invokes the provider once, and finishes or marks the operation ambiguous.  It waits between all of
 these, so calls interleave there.
 */
module IssuerSigner {
  import opened Strings
  import opened Wrappers

  // ------------------------------------------------------------- fingerprints

  /** A validated request.  `digest` is the ideal hash of the payload: equal only for equal payloads. */
  datatype Operation =
    | Sign(tenantId: Text, keyRef: Text, algorithm: Text, digest: Text)
    | Rotate(tenantId: Text, keyRef: Text, nextKeyRef: Text)
    | Disable(tenantId: Text, keyRef: Text)

  predicate Safe(op: Operation) {
    NoNul(op.tenantId) && NoNul(op.keyRef)
  }

  /** The text whose hash is the operation's fingerprint; the hash is taken as the identity. */
  function Fingerprint(op: Operation): Text {
    match op
    case Sign(tenantId, keyRef, _, digest) => Join2(Ascii("sign"), Join2(tenantId, Join2(keyRef, digest)))
    case Rotate(tenantId, keyRef, next) => Join2(Ascii("rotate"), Join2(tenantId, Join2(keyRef, next)))
    case Disable(tenantId, keyRef) => Join2(Ascii("disable"), Join2(tenantId, keyRef))
  }

  /** The operation without the signing algorithm. */
  function Essence(op: Operation): Operation {
    if op.Sign? then op.(algorithm := []) else op
  }

  lemma Tags()
    ensures NoNul(Ascii("sign")) && NoNul(Ascii("rotate")) && NoNul(Ascii("disable"))
    ensures Ascii("sign") != Ascii("rotate") && Ascii("sign") != Ascii("disable") && Ascii("rotate") != Ascii("disable")
  {
    assert Ascii("sign") == [115, 105, 103, 110];
    assert Ascii("rotate") == [114, 111, 116, 97, 116, 101];
    assert Ascii("disable") == [100, 105, 115, 97, 98, 108, 101];
  }

  /** Two requests share a fingerprint exactly when they ask for the same thing, whatever the algorithm. */
  lemma FingerprintExactly(a: Operation, b: Operation)
    requires Safe(a) && Safe(b)
    ensures Fingerprint(a) == Fingerprint(b) <==> Essence(a) == Essence(b)
  {
    hide Join2, NoNul;
    Tags();
    Join2Injective(Tag(a), Rest(a), Tag(b), Rest(b));
    Join2Injective(a.tenantId, Tail(a), b.tenantId, Tail(b));
    Join2Injective(a.keyRef, Last(a), b.keyRef, Last(b));
  }

  function Tag(op: Operation): Text {
    match op
    case Sign(_, _, _, _) => Ascii("sign")
    case Rotate(_, _, _) => Ascii("rotate")
    case Disable(_, _) => Ascii("disable")
  }

  function Last(op: Operation): Text {
    match op case Sign(_, _, _, digest) => digest case Rotate(_, _, next) => next case Disable(_, _) => []
  }

  function Tail(op: Operation): Text {
    if op.Disable? then op.keyRef else Join2(op.keyRef, Last(op))
  }

  function Rest(op: Operation): Text {
    Join2(op.tenantId, Tail(op))
  }

  // ---------------------------------------------------------- dual approval

  datatype Context = Context(requestId: Text, op: Operation, at: int)

  datatype Approval = Approval(approvalId: Text, approverId: Text, requestId: Text, op: Operation, approvedAt: int,
    expiresAt: int)

  /** `^[A-Za-z0-9._:-]{1,128}$` */
  predicate IsApprovalId(t: Text) {
    1 <= |t| <= 128
    && forall i | 0 <= i < |t| ::
      IsDigit(t[i]) || 0x41 <= t[i] <= 0x5a || 0x61 <= t[i] <= 0x7a || t[i] in {0x2e, 0x5f, 0x3a, 0x2d}
  }

  /** The approval is well formed, for this very request and in force at its time.  Its binding digest is
      that of its operation, and a digest always has the form that is asked of it. */
  predicate Binds(a: Approval, c: Context) {
    && IsApprovalId(a.approvalId) && IsApprovalId(a.approverId)
    && a.requestId == c.requestId && a.op == c.op
    && IsSafeInteger(a.approvedAt) && IsSafeInteger(a.expiresAt)
    && a.approvedAt <= c.at < a.expiresAt
  }

  datatype ApprovalError = DualApprovalRequired | ApprovalInvalid

  function Ids(evidence: seq<Approval>): set<Text> {
    set a | a in evidence :: a.approvalId
  }

  function Approvers(evidence: seq<Approval>): set<Text> {
    set a | a in evidence :: a.approverId
  }

  predicate DuallyApproved(c: Context, evidence: seq<Approval>) {
    (forall a | a in evidence :: Binds(a, c)) && |Ids(evidence)| >= 2 && |Approvers(evidence)| >= 2
  }

  /** Two approvals with ids of their own by two approvers, and none that is not for this very request, for this
      very operation, and in force at its time. */
  predicate Approves(c: Context, evidence: seq<Approval>) {
    && (exists a, b | a in evidence && b in evidence :: a.approvalId != b.approvalId)
    && (exists a, b | a in evidence && b in evidence :: a.approverId != b.approverId)
    && forall a | a in evidence ::
      && a.requestId == c.requestId && a.op == c.op
      && -9007199254740991 <= a.approvedAt && a.approvedAt <= c.at && c.at < a.expiresAt
      && a.expiresAt <= 9007199254740991
      && IsApprovalId(a.approvalId) && IsApprovalId(a.approverId)
  }

  lemma TwoOf(s: set<Text>)
    ensures |s| >= 2 <==> exists x, y | x in s && y in s :: x != y
  {
    if |s| >= 2 {
      var x :| x in s;
      assert |s - {x}| >= 1;
      var y :| y in s - {x};
    }
    if x, y :| x in s && y in s && x != y {
      assert |s| == |s - {x, y}| + 2;
    }
  }

  /** Dual approval is that. */
  lemma ApprovedExactly(c: Context, evidence: seq<Approval>)
    ensures DuallyApproved(c, evidence) <==> Approves(c, evidence)
  {
    hide IsApprovalId;
    TwoOf(Ids(evidence));
    TwoOf(Approvers(evidence));
    TwoIds(evidence);
    TwoApprovers(evidence);
  }

  lemma TwoIds(evidence: seq<Approval>)
    ensures (exists x, y | x in Ids(evidence) && y in Ids(evidence) :: x != y)
      <==> exists a, b | a in evidence && b in evidence :: a.approvalId != b.approvalId
  {
    if x, y :| x in Ids(evidence) && y in Ids(evidence) && x != y {
      var a :| a in evidence && a.approvalId == x;
      var b :| b in evidence && b.approvalId == y;
    }
    if a, b :| a in evidence && b in evidence && a.approvalId != b.approvalId {
      assert a.approvalId in Ids(evidence) && b.approvalId in Ids(evidence);
    }
  }

  lemma TwoApprovers(evidence: seq<Approval>)
    ensures (exists x, y | x in Approvers(evidence) && y in Approvers(evidence) :: x != y)
      <==> exists a, b | a in evidence && b in evidence :: a.approverId != b.approverId
  {
    if x, y :| x in Approvers(evidence) && y in Approvers(evidence) && x != y {
      var a :| a in evidence && a.approverId == x;
      var b :| b in evidence && b.approverId == y;
    }
    if a, b :| a in evidence && b in evidence && a.approverId != b.approverId {
      assert a.approverId in Approvers(evidence) && b.approverId in Approvers(evidence);
    }
  }

  method RequireDualApproval(c: Context, evidence: seq<Approval>) returns (r: Result<(), ApprovalError>)
    ensures r.Ok? <==> DuallyApproved(c, evidence)
    ensures r == Err(ApprovalInvalid) <==> |evidence| >= 2 && exists a | a in evidence :: !Binds(a, c)
    ensures r.Ok? ==> Approves(c, evidence)
  {
    hide Approves, Binds, Ids, Approvers;
    ApprovedExactly(c, evidence);
    if |evidence| < 2 {
      FewApprovals(evidence);
      return Err(DualApprovalRequired);
    }
    var approvalIds, approvers: set<Text> := {}, {};
    NobodyYet(evidence);
    for i := 0 to |evidence|
      invariant approvalIds == Ids(evidence[..i]) && approvers == Approvers(evidence[..i])
      invariant forall a | a in evidence[..i] :: Binds(a, c)
    {
      if !Binds(evidence[i], c) {
        return Err(ApprovalInvalid);
      }
      approvalIds, approvers := approvalIds + {evidence[i].approvalId}, approvers + {evidence[i].approverId};
      OneMoreApproval(evidence, i);
    }
    assert evidence[..|evidence|] == evidence;
    r := if |approvalIds| < 2 || |approvers| < 2 then Err(DualApprovalRequired) else Ok(());
  }

  lemma NobodyYet(evidence: seq<Approval>)
    ensures Ids(evidence[..0]) == {} && Approvers(evidence[..0]) == {}
  {}

  lemma OneMoreApproval(evidence: seq<Approval>, i: nat)
    requires i < |evidence|
    ensures evidence[..i + 1] == evidence[..i] + [evidence[i]]
    ensures Ids(evidence[..i + 1]) == Ids(evidence[..i]) + {evidence[i].approvalId}
    ensures Approvers(evidence[..i + 1]) == Approvers(evidence[..i]) + {evidence[i].approverId}
  {
    assert evidence[..i + 1] == evidence[..i] + [evidence[i]];
  }

  lemma FewApprovals(evidence: seq<Approval>)
    requires |evidence| < 2
    ensures |Ids(evidence)| < 2
  {
    if |evidence| == 1 {
      assert Ids(evidence) == {evidence[0].approvalId};
    } else {
      assert Ids(evidence) == {};
    }
  }

  // -------------------------------------------------------- operation store

  datatype Outcome = Pending | Finished | Refused | Ambiguous

  datatype Entry = Entry(fingerprint: Text, outcome: Outcome)

  datatype Ledger = Ledger(operations: map<Text, Entry>, unresolved: map<Text, Text>)

  datatype Reservation = Reserved | DuplicateRequest | UnresolvedOperation

  function ReserveIn(l: Ledger, requestId: Text, fingerprint: Text): (Ledger, Reservation) {
    if requestId in l.operations then (l, DuplicateRequest)
    else if fingerprint in l.unresolved then (l, UnresolvedOperation)
    else (Ledger(l.operations[requestId := Entry(fingerprint, Pending)], l.unresolved[fingerprint := requestId]),
      Reserved)
  }

  /** `finish`; the caller holds a reservation. */
  function FinishIn(l: Ledger, requestId: Text, outcome: Outcome): Ledger
    requires requestId in l.operations
  {
    var entry := l.operations[requestId];
    Ledger(l.operations[requestId := entry.(outcome := outcome)],
           if outcome == Ambiguous then l.unresolved else l.unresolved - {entry.fingerprint})
  }

  class InMemoryIssuerOperationStore {
    var operations: map<Text, Entry>
    var unresolved: map<Text, Text>

    function Contents(): Ledger
      reads this
    {
      Ledger(operations, unresolved)
    }

    constructor ()
      ensures Contents() == Ledger(map[], map[])
    {
      operations, unresolved := map[], map[];
    }

    method Reserve(requestId: Text, fingerprint: Text) returns (r: Reservation)
      modifies this
      ensures (Contents(), r) == ReserveIn(old(Contents()), requestId, fingerprint)
    {
      if requestId in operations {
        return DuplicateRequest;
      }
      if fingerprint in unresolved {
        return UnresolvedOperation;
      }
      operations := operations[requestId := Entry(fingerprint, Pending)];
      unresolved := unresolved[fingerprint := requestId];
      r := Reserved;
    }

    method Finish(requestId: Text, outcome: Outcome) returns (ok: bool)
      modifies this
      ensures ok <==> requestId in old(operations)
      ensures Contents() == if ok then FinishIn(old(Contents()), requestId, outcome) else old(Contents())
    {
      if requestId !in operations {
        return false;
      }
      var entry := operations[requestId];
      operations := operations[requestId := entry.(outcome := outcome)];
      if outcome != Ambiguous {
        unresolved := unresolved - {entry.fingerprint};
      }
      ok := true;
    }
  }

  // ------------------------------------------------------------ interleavings

  /** Where a call is.  From `Holding` on it holds its reservation. */
  datatype Phase =
    | Checking
    | Reserving(evidence: seq<Approval>)
    | Holding(evidence: seq<Approval>)
    | Invoked
    | Confirming
    | Auditing(outcome: Outcome)
    | Finishing(outcome: Outcome)
    | Marking

  datatype Call = Call(context: Context, phase: Phase)

  /** One call of the provider, for what, and with which approvals. */
  datatype Invocation = Invocation(context: Context, evidence: seq<Approval>) {
    function RequestId(): Text {
      context.requestId
    }

    function OperationPrint(): Text {
      Fingerprint(context.op)
    }
  }

  datatype State = State(ledger: Ledger, calls: map<nat, Call>, log: seq<Invocation>)

  /** How the provider answers; `Malformed` is a signature of the wrong shape. */
  datatype Reply = Completed | Rejection | Unsure | Throws | Malformed

  datatype Event =
    | Begin(call: nat, context: Context)
    | Check(call: nat, keyOk: bool, evidence: seq<Approval>)
    | Reserve(call: nat)
    | Invoke(call: nat)
    | Answer(call: nat, reply: Reply)
    | Confirm(call: nat, ok: bool)
    | Audit(call: nat, ok: bool)
    | Settle(call: nat)

  function MoveTo(st: State, call: nat, phase: Phase): State
    requires call in st.calls
  {
    st.(calls := st.calls[call := st.calls[call].(phase := phase)])
  }

  function Drop(st: State, call: nat): State {
    st.(calls := st.calls - {call})
  }

  function AfterAnswer(op: Operation, reply: Reply): Phase {
    match reply
    case Completed => if op.Sign? then Auditing(Finished) else Confirming
    case Rejection => Auditing(Refused)
    case Unsure => Marking
    case Throws => Marking
    case Malformed => Marking
  }

  /** One step; an event that does not fit the call's phase changes nothing. */
  function Step(st: State, e: Event): State {
    if e.Begin? then
      if e.call in st.calls || !Safe(e.context.op) then st
         else st.(calls := st.calls[e.call := Call(e.context, Checking)])
    else if e.call !in st.calls then st
    else StepCall(st, e, st.calls[e.call].context, st.calls[e.call].phase)
  }

  function StepCall(st: State, e: Event, c: Context, phase: Phase): State
    requires e.call in st.calls && !e.Begin?
  {
    match (e, phase)
    case (Check(call, keyOk, evidence), Checking) =>
      if keyOk && DuallyApproved(c, evidence) then MoveTo(st, call, Reserving(evidence)) else Drop(st, call)
    case (Reserve(call), Reserving(evidence)) =>
      var (ledger, r) := ReserveIn(st.ledger, c.requestId, Fingerprint(c.op));
      if r == Reserved then MoveTo(st.(ledger := ledger), call, Holding(evidence)) else Drop(st, call)
    case (Invoke(call), Holding(evidence)) => MoveTo(st.(log := st.log + [Invocation(c, evidence)]), call, Invoked)
    case (Answer(call, reply), Invoked) => MoveTo(st, call, AfterAnswer(c.op, reply))
    case (Confirm(call, ok), Confirming) => MoveTo(st, call, if ok then Auditing(Finished) else Marking)
    case (Audit(call, ok), Auditing(outcome)) => MoveTo(st, call, if ok then Finishing(outcome) else Marking)
    case (Settle(call), Finishing(outcome)) => Settled(st, call, c.requestId, outcome)
    case (Settle(call), Marking) => Settled(st, call, c.requestId, Ambiguous)
    case _ => st
  }

  function Settled(st: State, call: nat, requestId: Text, outcome: Outcome): State {
    if requestId in st.ledger.operations then Drop(st.(ledger := FinishIn(st.ledger, requestId, outcome)), call) else st
  }

  function Init(): State {
    State(Ledger(map[], map[]), map[], [])
  }

  function Run(st: State, events: seq<Event>): State
    decreases |events|
  {
    if |events| == 0 then st else Run(Step(st, events[0]), events[1..])
  }

  // -------------------------------------------------------------- invariant

  predicate Holds(c: Call) {
    !c.phase.Checking? && !c.phase.Reserving?
  }

  predicate Open(entry: Entry) {
    entry.outcome == Pending || entry.outcome == Ambiguous
  }

  /** A call that holds a reservation owns a pending entry, which blocks its fingerprint. */
  predicate CallOk(st: State, c: Call) {
    && (Holds(c) ==>
        && c.context.requestId in st.ledger.operations
        && st.ledger.operations[c.context.requestId] == Entry(Fingerprint(c.context.op), Pending))
    && (c.phase.Holding? ==> !InvokedFor(st.log, c.context.requestId))
    && (c.phase.Reserving? ==> Approves(c.context, c.phase.evidence))
    && (c.phase.Holding? ==> Approves(c.context, c.phase.evidence))
    && (c.phase.Finishing? ==> c.phase.outcome == Finished || c.phase.outcome == Refused)
    && (c.phase.Auditing? ==> c.phase.outcome == Finished || c.phase.outcome == Refused)
  }

  predicate InvokedFor(log: seq<Invocation>, requestId: Text) {
    exists i | i in log :: i.RequestId() == requestId
  }

  /** An open entry is the one its fingerprint points to. */
  predicate EntryOk(st: State, requestId: Text) {
    requestId in st.ledger.operations && Open(st.ledger.operations[requestId]) ==>
      var f := st.ledger.operations[requestId].fingerprint;
      f in st.ledger.unresolved && st.ledger.unresolved[f] == requestId
  }

  predicate InvocationOk(st: State, i: Invocation) {
    i.RequestId() in st.ledger.operations && Approves(i.context, i.evidence)
  }

  ghost predicate Inv(st: State) {
    && (forall c | c in st.calls :: CallOk(st, st.calls[c]))
    && (forall c, d | c in st.calls && d in st.calls && c != d :: Apart(st.calls[c], st.calls[d]))
    && (forall r | r in st.ledger.operations :: EntryOk(st, r))
    && (forall i | i in st.log :: InvocationOk(st, i))
    && OncePerRequest(st.log)
  }

  /** Two calls never hold reservations for one request id. */
  predicate Apart(c: Call, d: Call) {
    Holds(c) && Holds(d) ==> c.context.requestId != d.context.requestId
  }

  predicate OncePerRequest(log: seq<Invocation>) {
    forall i, j | 0 <= i < j < |log| :: log[i].RequestId() != log[j].RequestId()
  }

  // ------------------------------------------------------------------- steps

  /** A move of one call that keeps what it holds. */
  lemma MoveKeeps(st: State, call: nat, phase: Phase)
    requires Inv(st) && call in st.calls
    requires Holds(st.calls[call].(phase := phase)) ==> Holds(st.calls[call])
    requires CallOk(st, st.calls[call].(phase := phase))
    ensures Inv(MoveTo(st, call, phase))
  {
    hide Approves, Fingerprint, OncePerRequest, InvokedFor;
    var next := MoveTo(st, call, phase);
    forall c | c in next.calls ensures CallOk(next, next.calls[c]) {
      assert c in st.calls && CallOk(st, st.calls[c]);
    }
    forall c, d | c in next.calls && d in next.calls && c != d ensures Apart(next.calls[c], next.calls[d]) {
      assert Apart(st.calls[c], st.calls[d]);
    }
    forall r | r in next.ledger.operations ensures EntryOk(next, r) {
      assert EntryOk(st, r);
    }
    forall i | i in next.log ensures InvocationOk(next, i) {
      assert InvocationOk(st, i);
    }
  }

  lemma DropKeeps(st: State, call: nat)
    requires Inv(st)
    ensures Inv(Drop(st, call))
  {
    hide Approves, Fingerprint, OncePerRequest, InvokedFor;
    var next := Drop(st, call);
    forall c | c in next.calls ensures CallOk(next, next.calls[c]) {
      assert CallOk(st, st.calls[c]);
    }
    forall c, d | c in next.calls && d in next.calls && c != d ensures Apart(next.calls[c], next.calls[d]) {
      assert Apart(st.calls[c], st.calls[d]);
    }
    forall r | r in next.ledger.operations ensures EntryOk(next, r) {
      assert EntryOk(st, r);
    }
    forall i | i in next.log ensures InvocationOk(next, i) {
      assert InvocationOk(st, i);
    }
  }

  lemma ReserveKeeps(st: State, call: nat)
    requires Inv(st) && call in st.calls && st.calls[call].phase.Reserving?
    ensures Inv(Step(st, Event.Reserve(call)))
  {
    hide Approves, Fingerprint, OncePerRequest, DuallyApproved;
    var me := st.calls[call];
    var r := ReserveIn(st.ledger, me.context.requestId, Fingerprint(me.context.op)).1;
    if r != Reserved {
      DropKeeps(st, call);
    } else {
      var next := Step(st, Event.Reserve(call));
      assert CallOk(st, me);
      forall c | c in next.calls ensures CallOk(next, next.calls[c]) {
        assert CallOk(st, st.calls[c]);
        if c == call {
          NotYetInvoked(st, me.context.requestId);
        }
      }
      forall c, d | c in next.calls && d in next.calls && c != d ensures Apart(next.calls[c], next.calls[d]) {
        assert Apart(st.calls[c], st.calls[d]) && CallOk(st, st.calls[c]) && CallOk(st, st.calls[d]);
      }
      forall k | k in next.ledger.operations ensures EntryOk(next, k) {
        assert k in st.ledger.operations ==> EntryOk(st, k);
      }
      forall i | i in next.log ensures InvocationOk(next, i) {
        assert InvocationOk(st, i);
      }
    }
  }

  lemma NotYetInvoked(st: State, requestId: Text)
    requires Inv(st) && requestId !in st.ledger.operations
    ensures !InvokedFor(st.log, requestId)
  {
    forall i | i in st.log ensures i.RequestId() != requestId {
      assert InvocationOk(st, i);
    }
  }

  lemma InvokeKeeps(st: State, call: nat)
    requires Inv(st) && call in st.calls && st.calls[call].phase.Holding?
    ensures Inv(Step(st, Event.Invoke(call)))
  {
    hide Approves, Fingerprint;
    var me := st.calls[call];
    var next := Step(st, Event.Invoke(call));
    assert CallOk(st, me);
    forall c | c in next.calls ensures CallOk(next, next.calls[c]) {
      assert CallOk(st, st.calls[c]);
      assert c != call ==> Apart(st.calls[c], me);
    }
    forall c, d | c in next.calls && d in next.calls && c != d ensures Apart(next.calls[c], next.calls[d]) {
      assert Apart(st.calls[c], st.calls[d]);
    }
    forall k | k in next.ledger.operations ensures EntryOk(next, k) {
      assert EntryOk(st, k);
    }
    forall i | i in next.log ensures InvocationOk(next, i) {
      assert i in st.log ==> InvocationOk(st, i);
    }
    forall i, j | 0 <= i < j < |next.log| ensures next.log[i].RequestId() != next.log[j].RequestId() {
      assert st.log[i] in st.log;
    }
  }

  lemma SettleKeeps(st: State, call: nat)
    requires Inv(st) && call in st.calls && (st.calls[call].phase.Finishing? || st.calls[call].phase.Marking?)
    ensures Inv(Step(st, Event.Settle(call)))
  {
    hide Approves, Fingerprint, OncePerRequest, InvokedFor;
    var me := st.calls[call];
    var next := Step(st, Event.Settle(call));
    assert CallOk(st, me) && EntryOk(st, me.context.requestId);
    forall c | c in next.calls ensures CallOk(next, next.calls[c]) {
      assert CallOk(st, st.calls[c]) && Apart(st.calls[c], me);
    }
    forall c, d | c in next.calls && d in next.calls && c != d ensures Apart(next.calls[c], next.calls[d]) {
      assert Apart(st.calls[c], st.calls[d]);
    }
    forall k | k in next.ledger.operations ensures EntryOk(next, k) {
      assert EntryOk(st, k);
    }
    forall i | i in next.log ensures InvocationOk(next, i) {
      assert InvocationOk(st, i);
    }
  }

  lemma BeginKeeps(st: State, e: Event)
    requires Inv(st) && e.Begin?
    ensures Inv(Step(st, e))
  {
    hide Approves, Fingerprint, OncePerRequest, InvokedFor, Safe;
    var next := Step(st, e);
    forall c | c in next.calls ensures CallOk(next, next.calls[c]) {
      assert c in st.calls ==> CallOk(st, st.calls[c]);
    }
    forall c, d | c in next.calls && d in next.calls && c != d ensures Apart(next.calls[c], next.calls[d]) {
      assert c in st.calls && d in st.calls ==> Apart(st.calls[c], st.calls[d]);
    }
    forall r | r in next.ledger.operations ensures EntryOk(next, r) {
      assert EntryOk(st, r);
    }
    forall i | i in next.log ensures InvocationOk(next, i) {
      assert InvocationOk(st, i);
    }
  }

  lemma StepKeeps(st: State, e: Event)
    requires Inv(st)
    ensures Inv(Step(st, e))
  {
    hide Inv, Fingerprint, InvokedFor, DuallyApproved, ReserveIn, Settled;
    if e.Begin? {
      BeginKeeps(st, e);
    } else if e.call in st.calls {
      var me := st.calls[e.call];
      CallIsOk(st, e.call);
      match (e, me.phase)
      case (Check(call, keyOk, evidence), Checking) =>
        DropKeeps(st, call);
        if keyOk && DuallyApproved(me.context, evidence) {
          ApprovedExactly(me.context, evidence);
          MoveKeeps(st, call, Reserving(evidence));
        }
      case (Reserve(call), Reserving(_)) => ReserveKeeps(st, call);
      case (Invoke(call), Holding(_)) => InvokeKeeps(st, call);
      case (Answer(call, reply), Invoked) => MoveKeeps(st, call, AfterAnswer(me.context.op, reply));
      case (Confirm(call, ok), Confirming) => MoveKeeps(st, call, if ok then Auditing(Finished) else Marking);
      case (Audit(call, ok), Auditing(outcome)) => MoveKeeps(st, call, if ok then Finishing(outcome) else Marking);
      case (Settle(call), Finishing(_)) => SettleKeeps(st, call);
      case (Settle(call), Marking) => SettleKeeps(st, call);
      case _ =>
    }
  }

  lemma CallIsOk(st: State, call: nat)
    requires Inv(st) && call in st.calls
    ensures CallOk(st, st.calls[call])
  {}

  lemma {:induction false} RunKeeps(st: State, events: seq<Event>)
    requires Inv(st)
    ensures Inv(Run(st, events))
    decreases |events|
  {
    hide Step, Inv;
    if |events| > 0 {
      StepKeeps(st, events[0]);
      RunKeeps(Step(st, events[0]), events[1..]);
    }
  }

  // ---------------------------------------------------------------- theorems

  lemma InitInv()
    ensures Inv(Init())
  {}

  /** However calls interleave, the provider is invoked at most once for a request id, and each invocation
      had two approvals by two approvers, all for that very operation under that request id and in force. */
  lemma InvokedOncePerRequest(events: seq<Event>)
    ensures OncePerRequest(Run(Init(), events).log)
    ensures forall i | i in Run(Init(), events).log :: Approves(i.context, i.evidence)
  {
    hide Run, CallOk, EntryOk, Apart, Approves;
    InitInv();
    RunKeeps(Init(), events);
    forall i | i in Run(Init(), events).log ensures Approves(i.context, i.evidence) {
      assert InvocationOk(Run(Init(), events), i);
    }
  }

  /** A call was begun for the request, and a check of its key and of these approvals went well. */
  predicate Vouched(past: seq<Event>, context: Context, evidence: seq<Approval>) {
    exists j, k | 0 <= j < k < |past| :: BeginsFor(past[j], context) && Checks(past[k], past[j], evidence)
  }

  predicate BeginsFor(e: Event, context: Context) {
    e.Begin? && e.context == context
  }

  predicate Checks(e: Event, begun: Event, evidence: seq<Approval>) {
    e.Check? && e.keyOk && e.evidence == evidence && begun.Begin? && e.call == begun.call
  }

  predicate Begun(past: seq<Event>, call: nat, context: Context) {
    exists j | 0 <= j < |past| :: BeginsFor(past[j], context) && past[j].call == call
  }

  ghost predicate AllVouched(past: seq<Event>, st: State) {
    && (forall c | c in st.calls :: Begun(past, c, st.calls[c].context))
    && (forall c | c in st.calls && st.calls[c].phase.Reserving? ::
          Vouched(past, st.calls[c].context, st.calls[c].phase.evidence))
    && (forall c | c in st.calls && st.calls[c].phase.Holding? ::
          Vouched(past, st.calls[c].context, st.calls[c].phase.evidence))
    && (forall i | i in st.log :: Vouched(past, i.context, i.evidence))
  }

  lemma StillBegun(past: seq<Event>, e: Event, call: nat, context: Context)
    requires Begun(past, call, context)
    ensures Begun(past + [e], call, context)
  {
    var j :| 0 <= j < |past| && BeginsFor(past[j], context) && past[j].call == call;
    assert (past + [e])[j] == past[j];
  }

  lemma StillVouched(past: seq<Event>, e: Event, context: Context, evidence: seq<Approval>)
    requires Vouched(past, context, evidence)
    ensures Vouched(past + [e], context, evidence)
  {
    var j, k :| 0 <= j < k < |past| && BeginsFor(past[j], context) && Checks(past[k], past[j], evidence);
    assert (past + [e])[j] == past[j] && (past + [e])[k] == past[k];
  }

  lemma NowVouched(past: seq<Event>, e: Event, context: Context)
    requires e.Check? && e.keyOk && Begun(past, e.call, context)
    ensures Vouched(past + [e], context, e.evidence)
  {
    var j :| 0 <= j < |past| && BeginsFor(past[j], context) && past[j].call == e.call;
    assert (past + [e])[j] == past[j] && (past + [e])[|past|] == e;
  }

  lemma StepVouched(past: seq<Event>, st: State, e: Event)
    requires AllVouched(past, st)
    ensures AllVouched(past + [e], Step(st, e))
  {
    hide Vouched, Begun, DuallyApproved, ReserveIn, FinishIn, Fingerprint, Safe;
    var (all, next) := (past + [e], Step(st, e));
    forall c | c in next.calls ensures Begun(all, c, next.calls[c].context) {
      if c in st.calls {
        StillBegun(past, e, c, st.calls[c].context);
      } else {
        NowBegun(past, e);
      }
    }
    forall c | c in next.calls && (next.calls[c].phase.Reserving? || next.calls[c].phase.Holding?)
      ensures Vouched(all, next.calls[c].context, next.calls[c].phase.evidence) {
      if st.calls[c].phase.Reserving? || st.calls[c].phase.Holding? {
        StillVouched(past, e, st.calls[c].context, st.calls[c].phase.evidence);
      } else {
        NowVouched(past, e, st.calls[c].context);
      }
    }
    forall i | i in next.log ensures Vouched(all, i.context, i.evidence) {
      StillVouched(past, e, i.context, i.evidence);
    }
  }

  lemma NowBegun(past: seq<Event>, e: Event)
    requires e.Begin?
    ensures Begun(past + [e], e.call, e.context)
  {
    assert (past + [e])[|past|] == e;
  }

  lemma {:induction false} RunVouched(past: seq<Event>, st: State, events: seq<Event>)
    requires AllVouched(past, st)
    ensures AllVouched(past + events, Run(st, events))
    decreases |events|
  {
    hide Step, AllVouched;
    if |events| == 0 {
      assert past + events == past;
    } else {
      StepVouched(past, st, events[0]);
      RunVouched(past + [events[0]], Step(st, events[0]), events[1..]);
      assert past + [events[0]] + events[1..] == past + events;
    }
  }

  /** And for each, a call was begun for it, whose key and these approvals were checked with success. */
  lemma InvokedAfterChecks(events: seq<Event>, i: Invocation)
    requires i in Run(Init(), events).log
    ensures Vouched(events, i.context, i.evidence)
  {
    hide Run, Vouched, Begun;
    RunVouched([], Init(), events);
    assert [] + events == events;
  }

  /** At most one operation of a fingerprint is pending or ambiguous. */
  lemma OneOpenPerFingerprint(events: seq<Event>, r: Text, s: Text)
    requires
      var operations := Run(Init(), events).ledger.operations;
      && r in operations && s in operations && Open(operations[r]) && Open(operations[s])
      && operations[r].fingerprint == operations[s].fingerprint
    ensures r == s
  {
    hide Run, CallOk, Apart, InvocationOk;
    InitInv();
    RunKeeps(Init(), events);
    assert EntryOk(Run(Init(), events), r) && EntryOk(Run(Init(), events), s);
  }

  predicate Marks(c: Call, requestId: Text) {
    c.phase.Marking? && c.context.requestId == requestId
  }

  /** The operation's outcome is ambiguous, or a call is about to record that it is. */
  ghost predicate Doomed(st: State, requestId: Text, fingerprint: Text) {
    && requestId in st.ledger.operations
    && st.ledger.operations[requestId].fingerprint == fingerprint
    && (st.ledger.operations[requestId].outcome == Ambiguous || exists c | c in st.calls ::
      Marks(st.calls[c], requestId))
  }

  /** No other call holds a doomed operation. */
  lemma DoomedIsAlone(st: State, requestId: Text, fingerprint: Text, call: nat)
    requires Inv(st) && Doomed(st, requestId, fingerprint)
    requires call in st.calls && Holds(st.calls[call]) && !st.calls[call].phase.Marking?
    ensures st.calls[call].context.requestId != requestId
    ensures Fingerprint(st.calls[call].context.op) != fingerprint
  {
    hide Fingerprint, OncePerRequest, InvocationOk, InvokedFor;
    var me := st.calls[call];
    assert CallOk(st, me) && EntryOk(st, me.context.requestId) && EntryOk(st, requestId);
    if c :| c in st.calls && Marks(st.calls[c], requestId) {
      assert Apart(st.calls[c], me) && CallOk(st, st.calls[c]);
    }
  }

  lemma DoomedStays(st: State, e: Event, requestId: Text, fingerprint: Text)
    requires Inv(st) && Doomed(st, requestId, fingerprint)
    ensures Doomed(Step(st, e), requestId, fingerprint)
    ensures Step(st, e).log == st.log
         || exists i :: Step(st, e).log == st.log + [i] && i.OperationPrint() != fingerprint
  {
    hide Inv, CallOk, EntryOk, Apart, Fingerprint, OncePerRequest, InvocationOk, InvokedFor, DuallyApproved;
    var next := Step(st, e);
    if !e.Begin? && e.call in st.calls && Holds(st.calls[e.call]) && !st.calls[e.call].phase.Marking? {
      DoomedIsAlone(st, requestId, fingerprint, e.call);
    }
    if st.ledger.operations[requestId].outcome != Ambiguous {
      var c :| c in st.calls && Marks(st.calls[c], requestId);
      assert c in next.calls ==> Marks(next.calls[c], requestId);
    }
  }

  /** Once an outcome is ambiguous the provider is never invoked again for that fingerprint. */
  lemma {:induction false} NeverInvokedAgain(st: State, events: seq<Event>, requestId: Text, fingerprint: Text)
    requires Inv(st) && Doomed(st, requestId, fingerprint)
    ensures st.log <= Run(st, events).log
    ensures forall i | i in Run(st, events).log[|st.log|..] :: i.OperationPrint() != fingerprint
    decreases |events|
  {
    hide Step, Inv, Doomed;
    if |events| > 0 {
      DoomedStays(st, events[0], requestId, fingerprint);
      StepKeeps(st, events[0]);
      NeverInvokedAgain(Step(st, events[0]), events[1..], requestId, fingerprint);
      LaterEntries(st.log, Step(st, events[0]).log, Run(st, events).log, fingerprint);
    }
  }

  lemma LaterEntries(a: seq<Invocation>, b: seq<Invocation>, c: seq<Invocation>, fingerprint: Text)
    requires b == a || exists i :: b == a + [i] && i.OperationPrint() != fingerprint
    requires b <= c && forall i | i in c[|b|..] :: i.OperationPrint() != fingerprint
    ensures a <= c && forall i | i in c[|a|..] :: i.OperationPrint() != fingerprint
  {
    forall k | |a| <= k < |c| ensures c[k].OperationPrint() != fingerprint {
      if k < |b| {
        assert c[k] == b[k];
      } else {
        assert c[k] == c[|b|..][k - |b|];
      }
    }
  }

  predicate Unclear(reply: Reply) {
    reply == Unsure || reply == Throws || reply == Malformed
  }

  /** An unclear answer of the provider, in whatever interleaving, blocks every retry of the operation
      under any request id, and under any signing algorithm. */
  lemma UnclearAnswerBlocksRetries(before: seq<Event>, call: nat, reply: Reply, after: seq<Event>, again: Operation)
    requires
      var st := Run(Init(), before);
      && call in st.calls && st.calls[call].phase.Invoked? && Unclear(reply)
      && Safe(again) && Safe(st.calls[call].context.op) && Essence(again) == Essence(st.calls[call].context.op)
    ensures
      var st := Step(Run(Init(), before), Answer(call, reply));
      st.log <= Run(st, after).log && forall i | i in Run(st, after).log[|st.log|..] ::
        i.OperationPrint() != Fingerprint(again)
  {
    hide Run, Inv, Safe, Fingerprint, InvokedFor;
    InitInv();
    RunKeeps(Init(), before);
    var st := Run(Init(), before);
    var c := st.calls[call];
    var next := Step(st, Answer(call, reply));
    CallIsOk(st, call);
    FingerprintExactly(again, c.context.op);
    StepKeeps(st, Answer(call, reply));
    assert Marks(next.calls[call], c.context.requestId);
    NeverInvokedAgain(next, after, c.context.requestId, Fingerprint(again));
  }
}
