/** What becomes of a request to the issuer signer, from its call to the record of its outcome. */
module SignerChecks {
  import opened Strings
  import opened Wrappers
  import opened IssuerSigner

  // ---------------------------------------------------------- the operation store

  /** A reservation is made exactly for a new request id and an operation that is not open under another. */
  lemma ReserveExactly(l: Ledger, requestId: Text, fingerprint: Text)
    ensures
      var (next, r) := ReserveIn(l, requestId, fingerprint);
      && (r == Reserved <==> requestId !in l.operations && fingerprint !in l.unresolved)
      && (r == DuplicateRequest <==> requestId in l.operations)
      && next == if r == Reserved
                 then Ledger(l.operations[requestId := Entry(fingerprint, Pending)],
                   l.unresolved[fingerprint := requestId])
                 else l
  {}

  /** An outcome is recorded, and every outcome but an unclear one opens the operation again. */
  lemma FinishExactly(l: Ledger, requestId: Text, outcome: Outcome)
    requires requestId in l.operations
    ensures
      var (next, was) := (FinishIn(l, requestId, outcome), l.operations[requestId]);
      && next.operations == l.operations[requestId := Entry(was.fingerprint, outcome)]
      && (forall f :: f in next.unresolved <==>
            f in l.unresolved && (outcome == Ambiguous || f != was.fingerprint))
      && forall f | f in next.unresolved :: next.unresolved[f] == l.unresolved[f]
  {}

  // ------------------------------------------------------------- whole requests

  lemma Next(st: State, events: seq<Event>)
    requires |events| > 0
    ensures Run(st, events) == Run(Step(st, events[0]), events[1..])
  {
    hide Step;
  }

  lemma Done(st: State)
    ensures Run(st, []) == st
  {}

  lemma {:induction false} RunAppend(st: State, first: seq<Event>, second: seq<Event>)
    ensures Run(st, first + second) == Run(Run(st, first), second)
    decreases |first|
  {
    hide Step;
    if |first| == 0 {
      assert first + second == second;
    } else {
      assert (first + second)[1..] == first[1..] + second;
      RunAppend(Step(st, first[0]), first[1..], second);
    }
  }

  lemma RunThree(st: State, a: Event, b: Event, c: Event)
    ensures Run(st, [a, b, c]) == Step(Step(Step(st, a), b), c)
  {
    hide Step;
    assert [a, b, c][1..] == [b, c] && [b, c][1..] == [c] && [c][1..] == [];
    Next(st, [a, b, c]);
    Next(Step(st, a), [b, c]);
    Next(Step(Step(st, a), b), [c]);
    Done(Step(Step(Step(st, a), b), c));
  }

  /** Nothing but a well-formed new call is begun, and a call whose key or approvals are not good ends there. */
  lemma CheckExactly(st: State, call: nat, c: Context, keyOk: bool, evidence: seq<Approval>)
    requires call !in st.calls
    ensures
      var (begun, checked) := (Step(st, Begin(call, c)), Step(Step(st, Begin(call, c)), Check(call, keyOk, evidence)));
      && begun == (if NoNul(c.op.tenantId) && NoNul(c.op.keyRef) then st.(calls := st.calls[call := Call(c, Checking)])
        else st)
      && checked == if NoNul(c.op.tenantId) && NoNul(c.op.keyRef) && keyOk && Approves(c, evidence)
                    then st.(calls := st.calls[call := Call(c, Reserving(evidence))]) else st
  {
    hide NoNul, DuallyApproved, Approves;
    ApprovedExactly(c, evidence);
    assert st.calls[call := Call(c, Checking)] - {call} == st.calls;
    assert st.calls - {call} == st.calls;
  }

  /** What the provider's answer, the look at the key afterwards, and the audit record make of an operation. */
  function OutcomeOf(op: Operation, reply: Reply, confirmed: bool, audited: bool): Outcome {
    if reply == Completed && (op.Sign? || confirmed) && audited then Finished
    else if reply == Rejection && audited then Refused
    else Ambiguous
  }

  /** The moments of a call from its reservation to its end. */
  function Rest(call: nat, op: Operation, reply: Reply, confirmed: bool, audited: bool): seq<Event> {
    [Event.Reserve(call), Invoke(call), Answer(call, reply)]
    + ((if reply == Completed && !op.Sign? then [Confirm(call, confirmed)] else [])
       + ((if reply == Rejection || (reply == Completed && (op.Sign? || confirmed)) then [Audit(call, audited)] else [])
          + [Settle(call)]))
  }

  lemma Invokes(st: State, call: nat, c: Context, evidence: seq<Approval>, reply: Reply)
    requires call in st.calls && st.calls[call] == Call(c, Reserving(evidence))
    requires c.requestId !in st.ledger.operations && Fingerprint(c.op) !in st.ledger.unresolved
    ensures
      var ledger := ReserveIn(st.ledger, c.requestId, Fingerprint(c.op)).0;
      Run(st, [Event.Reserve(call), Invoke(call), Answer(call, reply)])
      == State(ledger, st.calls[call := Call(c, AfterAnswer(c.op, reply))], st.log + [Invocation(c, evidence)])
  {
    hide Fingerprint, AfterAnswer;
    RunThree(st, Event.Reserve(call), Invoke(call), Answer(call, reply));
    var st1 := Step(st, Event.Reserve(call));
    assert st1.calls == st.calls[call := Call(c, Holding(evidence))];
    var st2 := Step(st1, Invoke(call));
    assert st2.calls == st.calls[call := Call(c, Invoked)];
    assert Step(st2, Answer(call, reply)).calls == st.calls[call := Call(c, AfterAnswer(c.op, reply))];
  }

  /** An approved request for a new id and an operation that is not open invokes the provider once, with its
      approvals, and ends with the outcome above; only an unclear one leaves the operation blocked. */
  lemma RequestRunsThrough(st: State, call: nat, c: Context, evidence: seq<Approval>, reply: Reply, confirmed: bool,
                           audited: bool)
    requires call in st.calls && st.calls[call] == Call(c, Reserving(evidence))
    requires c.requestId !in st.ledger.operations && Fingerprint(c.op) !in st.ledger.unresolved
    ensures
      var next := Run(st, Rest(call, c.op, reply, confirmed, audited));
      var outcome := OutcomeOf(c.op, reply, confirmed, audited);
      && next.calls == st.calls - {call} && next.log == st.log + [Invocation(c, evidence)]
      && next.ledger.operations == st.ledger.operations[c.requestId := Entry(Fingerprint(c.op), outcome)]
      && next.ledger.unresolved == if outcome == Ambiguous then st.ledger.unresolved[Fingerprint(c.op) := c.requestId]
                                   else st.ledger.unresolved
  {
    hide Fingerprint, Run, Step;
    var first := [Event.Reserve(call), Invoke(call), Answer(call, reply)];
    var confirm: seq<Event> := if reply == Completed && !c.op.Sign? then [Confirm(call, confirmed)] else [];
    var audit: seq<Event> := if reply == Rejection || (reply == Completed && (c.op.Sign? || confirmed)) then
      [Audit(call, audited)] else [];
    RunAppend(st, first, confirm + (audit + [Settle(call)]));
    Invokes(st, call, c, evidence, reply);
    var st1 := Run(st, first);
    RunAppend(st1, confirm, audit + [Settle(call)]);
    Confirms(st1, call, c, reply, confirmed);
    var st2 := Run(st1, confirm);
    RunAppend(st2, audit, [Settle(call)]);
    Audits(st2, call, c, reply, confirmed, audited);
    var st3 := Run(st2, audit);
    Settles(st3, call, c, OutcomeOf(c.op, reply, confirmed, audited));
    FinishExactly(st3.ledger, c.requestId, OutcomeOf(c.op, reply, confirmed, audited));
    ReserveExactly(st.ledger, c.requestId, Fingerprint(c.op));
    FinishesReserved(st.ledger, c.requestId, Fingerprint(c.op), OutcomeOf(c.op, reply, confirmed, audited));
    assert st1.calls - {call} == st.calls - {call};
  }

  lemma FinishesReserved(l: Ledger, requestId: Text, fingerprint: Text, outcome: Outcome)
    requires requestId !in l.operations && fingerprint !in l.unresolved
    ensures
      var next := FinishIn(ReserveIn(l, requestId, fingerprint).0, requestId, outcome);
      && next.operations == l.operations[requestId := Entry(fingerprint, outcome)]
      && next.unresolved == if outcome == Ambiguous then l.unresolved[fingerprint := requestId] else l.unresolved
  {
    assert l.unresolved[fingerprint := requestId] - {fingerprint} == l.unresolved;
  }

  /** Where a call is before its outcome is audited. */
  function Confirmed(op: Operation, reply: Reply, confirmed: bool): Phase {
    if reply == Rejection then Auditing(Refused)
    else if reply == Completed && (op.Sign? || confirmed) then Auditing(Finished)
    else Marking
  }

  lemma RunOne(st: State, e: Event)
    ensures Run(st, [e]) == Step(st, e)
  {
    hide Step;
    assert [e][1..] == [];
    Next(st, [e]);
    Done(Step(st, e));
  }

  lemma Confirms(st: State, call: nat, c: Context, reply: Reply, confirmed: bool)
    requires call in st.calls && st.calls[call] == Call(c, AfterAnswer(c.op, reply))
    ensures
      var events: seq<Event> := if reply == Completed && !c.op.Sign? then [Confirm(call, confirmed)] else [];
      Run(st, events) == st.(calls := st.calls[call := Call(c, Confirmed(c.op, reply, confirmed))])
  {
    hide Run, Fingerprint;
    if reply == Completed && !c.op.Sign? {
      RunOne(st, Confirm(call, confirmed));
    } else {
      Done(st);
      assert st.calls[call := st.calls[call]] == st.calls;
    }
  }

  lemma Audits(st: State, call: nat, c: Context, reply: Reply, confirmed: bool, audited: bool)
    requires call in st.calls && st.calls[call] == Call(c, Confirmed(c.op, reply, confirmed))
    ensures
      var events: seq<Event> :=
        if reply == Rejection || (reply == Completed && (c.op.Sign? || confirmed)) then [Audit(call, audited)] else [];
      var outcome := OutcomeOf(c.op, reply, confirmed, audited);
      Run(st, events) == st.(calls :=
        st.calls[call := Call(c, if outcome == Ambiguous then Marking else Finishing(outcome))])
  {
    hide Run, Fingerprint;
    if reply == Rejection || (reply == Completed && (c.op.Sign? || confirmed)) {
      RunOne(st, Audit(call, audited));
    } else {
      Done(st);
      assert st.calls[call := st.calls[call]] == st.calls;
    }
  }

  lemma Settles(st: State, call: nat, c: Context, outcome: Outcome)
    requires call in st.calls && outcome != Pending && c.requestId in st.ledger.operations
    requires st.calls[call] == Call(c, if outcome == Ambiguous then Marking else Finishing(outcome))
    ensures Run(st, [Settle(call)]) == State(FinishIn(st.ledger, c.requestId, outcome), st.calls - {call}, st.log)
  {
    hide Run, Fingerprint, FinishIn;
    RunOne(st, Settle(call));
  }

  /** A request for an id already used, or an operation that is open, ends without invoking the provider. */
  lemma ReservedElsewhere(st: State, call: nat, c: Context, evidence: seq<Approval>)
    requires call in st.calls && st.calls[call] == Call(c, Reserving(evidence))
    requires c.requestId in st.ledger.operations || Fingerprint(c.op) in st.ledger.unresolved
    ensures Step(st, Event.Reserve(call)) == st.(calls := st.calls - {call})
  {
    hide Fingerprint;
  }
}
