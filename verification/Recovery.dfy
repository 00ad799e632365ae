/**
 Guardian recovery.  A proposal takes effect when its digest is ready, so landing is its own step and
 proposals made at the same time land in any order.
 */
module Recovery {
  import opened Strings
  import opened Wrappers
  import opened Addresses

  /** `guardians` holds lower-case addresses, each once. */
  datatype Policy = Policy(account: Address, guardians: seq<Address>, threshold: int, timelockBlocks: int)

  predicate ValidPolicy(p: Policy) {
    && ValidAddress(p.account) && p.timelockBlocks >= 1 && 1 <= p.threshold <= |p.guardians|
    && (forall g | g in p.guardians :: ValidAddress(g) && Lower(g) == g)
    && forall i, j | 0 <= i < j < |p.guardians| :: p.guardians[i] != p.guardians[j]
  }

  datatype Proposal = Proposal(newSigner: Address, proposedAtBlock: int, approvals: seq<Address>)

  datatype Controller = Controller(account: Address, signer: Address, pending: Option<Proposal>)

  datatype Error = InvalidProposal | NoProposal | NotAGuardian | ThresholdNotMet | TimelockNotElapsed

  predicate ValidProposal(newSigner: Address, atBlock: int) {
    ValidAddress(newSigner) && IsSafeInteger(atBlock) && atBlock >= 0
  }

  function Propose(c: Controller, newSigner: Address, atBlock: int): (Controller, Result<(), Error>) {
    if !ValidProposal(newSigner, atBlock) then (c, Err(InvalidProposal))
    else (c.(pending := Some(Proposal(newSigner, atBlock, []))), Ok(()))
  }

  function Approve(c: Controller, p: Policy, guardian: Address): (Controller, Result<(), Error>) {
    if c.pending.None? then (c, Err(NoProposal))
    else if Lower(guardian) !in p.guardians then (c, Err(NotAGuardian))
    else if Lower(guardian) in c.pending.value.approvals then (c, Ok(()))
    else (c.(pending := Some(c.pending.value.(approvals := c.pending.value.approvals + [Lower(guardian)]))), Ok(()))
  }

  function Execute(c: Controller, p: Policy, atBlock: int): (Controller, Result<Address, Error>) {
    if c.pending.None? then (c, Err(NoProposal))
    else if |c.pending.value.approvals| < p.threshold then (c, Err(ThresholdNotMet))
    else if atBlock < c.pending.value.proposedAtBlock + p.timelockBlocks then (c, Err(TimelockNotElapsed))
    else (c.(signer := c.pending.value.newSigner, pending := None), Ok(c.pending.value.newSigner))
  }

  /** Why `createRecoveryController` throws. */
  datatype Unfit = AddressRequired | InvalidThreshold | InvalidTimelock

  /** The guardians in lower case, the first of each. */
  function Guardians(given: seq<Address>): seq<Address> {
    if |given| == 0 then []
    else
      var (front, last) := (Guardians(given[..|given| - 1]), Lower(given[|given| - 1]));
      if last in front then front else front + [last]
  }

  /** `createRecoveryController`: the policy in force. */
  function Create(p: Policy, initialSigner: Address): Result<Policy, Unfit> {
    var guardians := Guardians(p.guardians);
    if !ValidAddress(p.account) || !ValidAddress(initialSigner) then Err(AddressRequired)
    else if (exists g | g in guardians :: !ValidAddress(g)) || !IsSafeInteger(p.threshold) || p.threshold < 1
      || p.threshold > |guardians| then Err(InvalidThreshold)
    else if !IsSafeInteger(p.timelockBlocks) || p.timelockBlocks < 1 then Err(InvalidTimelock)
    else Ok(p.(guardians := guardians))
  }

  predicate Named(given: seq<Address>, g: Address) {
    exists x | x in given :: Lower(x) == g
  }

  lemma {:induction false} GuardiansExactly(given: seq<Address>)
    ensures forall g :: g in Guardians(given) <==> Named(given, g)
    ensures forall i, j | 0 <= i < j < |Guardians(given)| :: Guardians(given)[i] != Guardians(given)[j]
  {
    hide Lower;
    if |given| > 0 {
      var (front, last) := (given[..|given| - 1], given[|given| - 1]);
      GuardiansExactly(front);
      forall g ensures Named(given, g) <==> Named(front, g) || g == Lower(last) {
        assert last in given;
      }
    }
  }

  lemma LowerAgain(a: Address)
    ensures Lower(Lower(a)) == Lower(a)
  {}

  /** A controller is made exactly for an account and a signer, guardians that are addresses, a threshold that they
      can reach without any counting twice, and a wait; its guardians are those named. */
  lemma CreatedExactly(p: Policy, initialSigner: Address)
    ensures
      var r := Create(p, initialSigner);
      && (r.Ok? <==>
            && ValidAddress(p.account) && ValidAddress(initialSigner)
            && (forall g | g in p.guardians :: ValidAddress(Lower(g)))
            && IsSafeInteger(p.threshold) && p.threshold >= 1 && p.threshold <= |set g | g in p.guardians :: Lower(g)|
            && IsSafeInteger(p.timelockBlocks) && p.timelockBlocks >= 1)
      && (r == Err(AddressRequired) <==> !(ValidAddress(p.account) && ValidAddress(initialSigner)))
      && (r.Ok? ==>
            && 1 <= r.value.threshold && r.value.threshold <= |r.value.guardians| && ValidPolicy(r.value)
            && (forall i, j | 0 <= i < j < |r.value.guardians| :: r.value.guardians[i] != r.value.guardians[j])
            && (forall g | g in r.value.guardians :: ValidAddress(g) && Lower(g) == g)
            && r.value.account == p.account && r.value.threshold == p.threshold
            && r.value.timelockBlocks == p.timelockBlocks
            && forall g :: g in r.value.guardians <==> Named(p.guardians, g))
  {
    hide ValidAddress, Lower, IsSafeInteger, Guardians;
    var guardians := Guardians(p.guardians);
    GuardiansExactly(p.guardians);
    Distinct(guardians);
    forall g | g in guardians ensures Lower(g) == g {
      var x :| x in p.guardians && Lower(x) == g;
      LowerAgain(x);
    }
    assert (set g | g in guardians) == set g | g in p.guardians :: Lower(g) by {
      forall g | g in p.guardians ensures Named(p.guardians, Lower(g)) {}
    }
    if forall g | g in guardians :: ValidAddress(g) {
      forall g | g in p.guardians ensures ValidAddress(Lower(g)) {
        assert Named(p.guardians, Lower(g));
      }
    }
  }

  lemma {:induction false} Distinct(a: seq<Address>)
    requires forall i, j | 0 <= i < j < |a| :: a[i] != a[j]
    ensures |set g | g in a| == |a|
  {
    if |a| > 0 {
      var front := a[..|a| - 1];
      Distinct(front);
      assert (set g | g in a) == (set g | g in front) + {a[|a| - 1]};
    }
  }

  /** A valid proposal replaces the pending one, with no approvals. */
  lemma ProposeExactly(c: Controller, newSigner: Address, atBlock: int)
    ensures
      var (after, r) := Propose(c, newSigner, atBlock);
      && (r.Ok? <==> ValidAddress(newSigner) && IsSafeInteger(atBlock) && atBlock >= 0)
      && after.account == c.account && after.signer == c.signer
      && after.pending == if r.Ok? then Some(Proposal(newSigner, atBlock, [])) else c.pending
  {
    hide ValidAddress, IsSafeInteger;
  }

  /** A guardian counts once, in any letters. */
  lemma ApproveExactly(c: Controller, p: Policy, guardian: Address)
    ensures
      var (after, r, g) := (Approve(c, p, guardian).0, Approve(c, p, guardian).1, Lower(guardian));
      && (r.Ok? <==> c.pending.Some? && g in p.guardians)
      && (r == Err(NoProposal) <==> c.pending.None?)
      && after.account == c.account && after.signer == c.signer
      && after.pending == if r.Ok? && g !in c.pending.value.approvals then
           Some(Proposal(c.pending.value.newSigner, c.pending.value.proposedAtBlock, c.pending.value.approvals + [g]))
         else c.pending
  {
    hide Lower;
  }

  /** An execution with enough approvals after the wait makes the proposed signer the signer, and ends the
      proposal. */
  lemma ExecutesExactly(c: Controller, p: Policy, atBlock: int)
    ensures
      var (after, r) := Execute(c, p, atBlock);
      && (r.Ok? <==>
            && c.pending.Some? && |c.pending.value.approvals| >= p.threshold
            && atBlock - c.pending.value.proposedAtBlock >= p.timelockBlocks)
      && (r == Err(NoProposal) <==> c.pending.None?)
      && (r == Err(ThresholdNotMet) <==> c.pending.Some? && |c.pending.value.approvals| < p.threshold)
      && (r.Err? ==> after == c)
      && (r.Ok? ==> after == Controller(c.account, r.value, None) && r.value == c.pending.value.newSigner)
  {}

  class RecoveryController {
    const policy: Policy
    var signer: Address
    var pending: Option<Proposal>

    function Contents(): Controller
      reads this
    {
      Controller(policy.account, signer, pending)
    }

    constructor (p: Policy, initialSigner: Address)
      requires ValidPolicy(p) && ValidAddress(initialSigner)
      ensures policy == p && Contents() == Controller(p.account, initialSigner, None)
    {
      policy := p;
      signer, pending := initialSigner, None;
    }

    method Land(newSigner: Address, atBlock: int) returns (r: Result<(), Error>)
      modifies this`pending
      ensures (Contents(), r) == Propose(old(Contents()), newSigner, atBlock)
    {
      if !ValidProposal(newSigner, atBlock) {
        return Err(InvalidProposal);
      }
      pending := Some(Proposal(newSigner, atBlock, []));
      r := Ok(());
    }

    method ApproveBy(guardian: Address) returns (r: Result<(), Error>)
      modifies this`pending
      ensures (Contents(), r) == Approve(old(Contents()), policy, guardian)
    {
      if pending.None? {
        return Err(NoProposal);
      }
      var normalized := Lower(guardian);
      if normalized !in policy.guardians {
        return Err(NotAGuardian);
      }
      if normalized !in pending.value.approvals {
        pending := Some(pending.value.(approvals := pending.value.approvals + [normalized]));
      }
      r := Ok(());
    }

    method ExecuteAt(atBlock: int) returns (r: Result<Address, Error>)
      modifies this`signer, this`pending
      ensures (Contents(), r) == Execute(old(Contents()), policy, atBlock)
    {
      if pending.None? {
        return Err(NoProposal);
      }
      if |pending.value.approvals| < policy.threshold {
        return Err(ThresholdNotMet);
      }
      if atBlock < pending.value.proposedAtBlock + policy.timelockBlocks {
        return Err(TimelockNotElapsed);
      }
      signer := pending.value.newSigner;
      pending := None;
      r := Ok(signer);
    }
  }

  // ------------------------------------------------------------------- runs

  datatype Event = Landed(newSigner: Address, block: int) | Approved(guardian: Address) | Executed(block: int)

  function Step(c: Controller, p: Policy, e: Event): Controller {
    match e
    case Landed(newSigner, block) => Propose(c, newSigner, block).0
    case Approved(guardian) => Approve(c, p, guardian).0
    case Executed(block) => Execute(c, p, block).0
  }

  function Start(p: Policy, signer: Address): Controller {
    Controller(p.account, signer, None)
  }

  /** The controller after the events. */
  function After(p: Policy, signer: Address, events: seq<Event>): Controller {
    if |events| == 0 then Start(p, signer)
    else Step(After(p, signer, events[..|events| - 1]), p, events[|events| - 1])
  }

  // ------------------------------------------------ what the history says
  // These read the events alone; the controller's state plays no part.

  predicate Lands(e: Event) {
    e.Landed? && ValidProposal(e.newSigner, e.block)
  }

  /** The guardians who approve somewhere in the events. */
  function Approvers(p: Policy, events: seq<Event>): set<Address> {
    set e | e in events && e.Approved? && Lower(e.guardian) in p.guardians :: Lower(e.guardian)
  }

  /** The position of the proposal in force: the last to land, unless it was carried out since. */
  function InForce(p: Policy, events: seq<Event>): (r: Option<nat>)
    ensures r.Some? ==> r.value < |events| && Lands(events[r.value])
    decreases |events|, 0
  {
    if |events| == 0 then None
    else
      var front, last := events[..|events| - 1], events[|events| - 1];
      if Lands(last) then Some(|front|)
      else if last.Executed? && MayExecute(p, front, last.block) then None
      else InForce(p, front)
  }

  /** A proposal is in force, old enough at this block, and enough guardians approved since it landed. */
  predicate MayExecute(p: Policy, events: seq<Event>, block: int)
    decreases |events|, 1
  {
    var j := InForce(p, events);
    j.Some? && block >= events[j.value].block + p.timelockBlocks
    && |Approvers(p, events[j.value + 1..])| >= p.threshold
  }

  /** The approvals list holds each approver once. */
  predicate Lists(approvals: seq<Address>, approvers: set<Address>) {
    && (forall a | a in approvals :: a in approvers)
    && (forall a | a in approvers :: a in approvals)
    && forall i, j | 0 <= i < j < |approvals| :: approvals[i] != approvals[j]
  }

  lemma {:induction false} ListSize(approvals: seq<Address>, approvers: set<Address>)
    requires Lists(approvals, approvers)
    ensures |approvals| == |approvers|
  {
    if |approvals| == 0 {
      assert approvers == {};
    } else {
      var n := |approvals|;
      var last := approvals[n - 1];
      assert last in approvals;
      forall a | a in approvers - {last} ensures a in approvals[..n - 1] {
        var i :| 0 <= i < n && approvals[i] == a;
      }
      forall a | a in approvals[..n - 1] ensures a in approvers - {last} {
        assert a in approvals;
        var i :| 0 <= i < n - 1 && approvals[i] == a;
      }
      ListSize(approvals[..n - 1], approvers - {last});
    }
  }

  /** The pending proposal is the one the history puts in force, with the approvals since it landed. */
  predicate Agrees(p: Policy, c: Controller, events: seq<Event>) {
    match InForce(p, events)
    case None => c.pending.None?
    case Some(j) =>
      && c.pending.Some?
      && c.pending.value.newSigner == events[j].newSigner && c.pending.value.proposedAtBlock == events[j].block
      && Lists(c.pending.value.approvals, Approvers(p, events[j + 1..]))
  }

  lemma ApproversGrow(p: Policy, events: seq<Event>, e: Event)
    ensures Approvers(p, events + [e])
         == if e.Approved? && Lower(e.guardian) in p.guardians then Approvers(p, events) + {Lower(e.guardian)}
            else Approvers(p, events)
  {
    hide Lower;
    assert e in events + [e];
    assert forall x | x in events + [e] :: x in events || x == e;
  }

  lemma ListGrows(approvals: seq<Address>, approvers: set<Address>, a: Address)
    requires Lists(approvals, approvers)
    ensures Lists(if a in approvals then approvals else approvals + [a], approvers + {a})
  {}

  /** The controller does what the history allows, and nothing else. */
  lemma {:induction false} StateIsHistory(p: Policy, signer: Address, events: seq<Event>)
    ensures Agrees(p, After(p, signer, events), events)
    ensures After(p, signer, events).account == p.account
    decreases |events|
  {
    hide Agrees, Step;
    if |events| == 0 {
      NothingPending(p, signer);
    } else {
      var front, last := events[..|events| - 1], events[|events| - 1];
      StateIsHistory(p, signer, front);
      var c := After(p, signer, front);
      assert events == front + [last];
      AccountStays(c, p, last);
      match last
      case Landed(_, _) => LandingAgrees(p, c, front, last);
      case Approved(_) => ApprovalAgrees(p, c, front, last);
      case Executed(_) => ExecutionAgrees(p, c, front, last);
    }
  }

  lemma NothingPending(p: Policy, signer: Address)
    ensures Agrees(p, Start(p, signer), [])
  {}

  lemma AccountStays(c: Controller, p: Policy, e: Event)
    ensures Step(c, p, e).account == c.account
  {
    hide ValidAddress, Lower;
  }

  lemma LandingAgrees(p: Policy, c: Controller, events: seq<Event>, e: Event)
    requires Agrees(p, c, events) && e.Landed?
    ensures Agrees(p, Step(c, p, e), events + [e])
  {
    hide ValidAddress, Lists, Approvers;
    assert (events + [e])[..|events|] == events;
    if Lands(e) {
      assert (events + [e])[|events| + 1..] == [];
      NobodyYet(p);
    } else {
      StillInForce(p, c, events, e);
    }
  }

  lemma ApprovalAgrees(p: Policy, c: Controller, events: seq<Event>, e: Event)
    requires Agrees(p, c, events) && e.Approved?
    ensures Agrees(p, Step(c, p, e), events + [e])
  {
    hide Lower, ValidAddress, Lists, Approvers;
    assert (events + [e])[..|events|] == events;
    var j := InForce(p, events);
    if j.Some? {
      assert (events + [e])[j.value + 1..] == events[j.value + 1..] + [e];
      ApproversGrow(p, events[j.value + 1..], e);
      ListGrows(c.pending.value.approvals, Approvers(p, events[j.value + 1..]), Lower(e.guardian));
    }
  }

  lemma ExecutionAgrees(p: Policy, c: Controller, events: seq<Event>, e: Event)
    requires Agrees(p, c, events) && e.Executed?
    ensures Agrees(p, Step(c, p, e), events + [e])
  {
    hide ValidAddress, Lists, Approvers, MayExecute;
    assert (events + [e])[..|events|] == events;
    ExecuteExactly(p, c, events, e.block);
    if !MayExecute(p, events, e.block) {
      StillInForce(p, c, events, e);
    }
  }

  /** An event that neither lands, nor is executed, nor approves leaves the proposal in force as it was. */
  lemma StillInForce(p: Policy, c: Controller, events: seq<Event>, e: Event)
    requires Agrees(p, c, events) && !Lands(e) && !e.Approved? && (e.Executed? ==> !MayExecute(p, events, e.block))
    ensures Agrees(p, c, events + [e])
  {
    hide ValidAddress, Lists, Approvers, MayExecute;
    assert (events + [e])[..|events|] == events;
    var j := InForce(p, events);
    if j.Some? {
      assert (events + [e])[j.value + 1..] == events[j.value + 1..] + [e];
      ApproversGrow(p, events[j.value + 1..], e);
    }
  }

  lemma NobodyYet(p: Policy)
    ensures Lists([], Approvers(p, []))
  {}

  /** Execution succeeds exactly when the history allows it. */
  lemma ExecuteExactly(p: Policy, c: Controller, events: seq<Event>, block: int)
    requires Agrees(p, c, events)
    ensures Execute(c, p, block).1.Ok? <==> MayExecute(p, events, block)
  {
    hide Lists, Approvers;
    var j := InForce(p, events);
    if j.Some? {
      ListSize(c.pending.value.approvals, Approvers(p, events[j.value + 1..]));
    }
  }

  // ---------------------------------------------------------------- theorems

  /** Nothing lands between a proposal in force and the end of the events. */
  lemma {:induction false} NothingNewer(p: Policy, events: seq<Event>, k: nat)
    requires InForce(p, events).Some? && InForce(p, events).value < k < |events|
    ensures !Lands(events[k])
    decreases |events|
  {
    var front := events[..|events| - 1];
    if k < |front| {
      NothingNewer(p, front, k);
      assert front[k] == events[k];
    }
  }

  /** What must have happened for the signer to become x at the last of these events. */
  ghost predicate Earned(p: Policy, events: seq<Event>, x: Address) {
    |events| > 0 && exists j: nat :: EarnedBy(p, events, x, j)
  }

  ghost predicate EarnedBy(p: Policy, events: seq<Event>, x: Address, j: nat)
    requires |events| > 0
  {
    var n := |events| - 1;
    && j < n && events[n].Executed?
    && Lands(events[j]) && events[j].newSigner == x
    && events[n].block >= events[j].block + p.timelockBlocks
    && (forall k | j < k < n :: !Lands(events[k]))
    && |Approvers(p, events[j + 1..n])| >= p.threshold
  }

  /** Over any run the signer changes to x only at an execution, when x was the proposal that had landed
      last, old enough, and approved since then by at least the threshold of distinct guardians; the
      account never changes. */
  lemma SignerChangesAreEarned(p: Policy, signer: Address, events: seq<Event>)
    requires |events| > 0
    ensures
      var before, after := After(p, signer, events[..|events| - 1]), After(p, signer, events);
      after.signer == before.signer || Earned(p, events, after.signer)
    ensures After(p, signer, events).account == p.account
  {
    hide Lower, ValidAddress, Lists, Approvers, InForce, After;
    var n := |events| - 1;
    var front, last := events[..n], events[n];
    StateIsHistory(p, signer, front);
    StateIsHistory(p, signer, events);
    AfterStep(p, signer, events);
    var c := After(p, signer, front);
    if last.Executed? && MayExecute(p, front, last.block) {
      ExecuteExactly(p, c, front, last.block);
      var j := InForce(p, front).value;
      forall k | j < k < n ensures !Lands(events[k]) {
        NothingNewer(p, front, k);
        assert front[k] == events[k];
      }
      assert front[j + 1..] == events[j + 1..n];
      assert EarnedBy(p, events, c.pending.value.newSigner, j);
    } else if last.Executed? {
      ExecuteExactly(p, c, front, last.block);
    }
  }

  lemma AfterStep(p: Policy, signer: Address, events: seq<Event>)
    requires |events| > 0
    ensures After(p, signer, events) == Step(After(p, signer, events[..|events| - 1]), p, events[|events| - 1])
  {}

  /** And a proposal that is not executed yet is executed as soon as the history allows it. */
  lemma EarnedExecutionSucceeds(p: Policy, signer: Address, events: seq<Event>, block: int)
    requires MayExecute(p, events, block)
    ensures Execute(After(p, signer, events), p, block).1 == Ok(events[InForce(p, events).value].newSigner)
  {
    hide Lists, Approvers, InForce, After, MayExecute;
    StateIsHistory(p, signer, events);
    ExecuteExactly(p, After(p, signer, events), events, block);
    InForceThere(p, events, block);
  }

  lemma InForceThere(p: Policy, events: seq<Event>, block: int)
    requires MayExecute(p, events, block)
    ensures InForce(p, events).Some?
  {}
}
