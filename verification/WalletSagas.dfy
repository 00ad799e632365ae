/** Vendor rotation and bundle import: sagas over ports that may fail before or after their effect. */
module WalletSagas {
  import opened Strings
  import opened Wrappers

  /** How an effect of a port ends: done, refused without effect, or done and then failing. */
  datatype Reply = Done | Refused | Torn

  predicate Happens(r: Reply) {
    r != Refused
  }

  /** How a question to a port ends. */
  datatype Check = Yes | No | Throws

  // --------------------------------------------------------- vendor rotation

  /** Which control paths of the account work, and whether the new one has been verified. */
  datatype Control = Control(previous: bool, next: bool, verified: bool)

  predicate Controlled(c: Control) {
    c.previous || (c.next && c.verified)
  }

  /** What a rotation must not change about an account. */
  datatype Identity = Identity(account: Text, chainId: int, did: Option<Text>)

  /** What `inspect` says before the rotation. */
  datatype Capability = Capability(portable: bool, recoveryAvailable: bool, account: Text, chainId: int,
    did: Option<Text>)

  /** The answers of the ports; `inspect` and `snapshot` throw when they are None. */
  datatype RotationPorts = RotationPorts(
    authorized: bool, inspect: Option<Capability>, install: Reply, verify: Check, snapshot: Option<Identity>,
      remove: Reply,
    rollback: Reply)

  datatype RotationOutcome =
    | Rotated(account: Text, did: Option<Text>)
    | Unauthorized | InspectionFailed | Unsupported | RotationFailed | RollbackFailed

  predicate SameIdentity(c: Capability, after: Option<Identity>) {
    after.Some? && after.value.account == c.account && after.value.chainId == c.chainId && after.value.did == c.did
  }

  /** An empty DID is left out of the result. */
  function Shown(did: Option<Text>): Option<Text> {
    if did.Some? && |did.value| > 0 then did else None
  }

  predicate Supported(p: RotationPorts) {
    p.inspect.Some? && p.inspect.value.portable && p.inspect.value.recoveryAvailable
  }

  /** Everything before the removal of the old control goes well. */
  predicate NextInForce(p: RotationPorts) {
    && p.authorized && Supported(p) && p.install == Done && p.verify == Yes
    && p.snapshot == Some(Identity(p.inspect.value.account, p.inspect.value.chainId, p.inspect.value.did))
  }

  /** The control after each effect, and how the rotation ends. */
  datatype Rotation = Rotation(trace: seq<Control>, outcome: RotationOutcome) {
    function Last(): Control
      requires |trace| > 0
    {
      trace[|trace| - 1]
    }
  }

  function Rollback(trace: seq<Control>, p: RotationPorts): Rotation
    requires |trace| > 0
  {
    var c := trace[|trace| - 1];
    Rotation(trace + [if Happens(p.rollback) then c.(next := false) else c],
             if p.rollback == Done then RotationFailed else RollbackFailed)
  }

  function Rotate(c: Control, p: RotationPorts): (r: Rotation)
    ensures |r.trace| > 0 && r.trace[0] == c
  {
    if !p.authorized then Rotation([c], Unauthorized)
    else if p.inspect.None? then Rotation([c], InspectionFailed)
    else if !Supported(p) then Rotation([c], Unsupported)
    else
      var c1 := if Happens(p.install) then c.(next := true) else c;
      if p.install != Done then Rotation([c, c1], RotationFailed)
      else if p.verify != Yes then Rollback([c, c1], p)
      else
        var c2 := c1.(verified := true);
        if !SameIdentity(p.inspect.value, p.snapshot) then Rollback([c, c1, c2], p)
        else
          var c3 := if Happens(p.remove) then c2.(previous := false) else c2;
          if p.remove != Done then Rollback([c, c1, c2, c3], p)
          else Rotation([c, c1, c2, c3], Rotated(p.inspect.value.account, Shown(p.inspect.value.did)))
  }

  class VendorRotation {
    var control: Control
    ghost var trace: seq<Control>

    constructor ()
      ensures control == Control(true, false, false) && trace == [control]
    {
      control := Control(true, false, false);
      trace := [Control(true, false, false)];
    }

    /** An effect on the control; false when the port throws. */
    method Apply(reply: Reply, effect: Control) returns (ok: bool)
      modifies this
      ensures ok <==> reply == Done
      ensures control == if Happens(reply) then effect else old(control)
      ensures trace == old(trace) + [control]
    {
      if reply != Refused {
        control := effect;
      }
      trace := trace + [control];
      ok := reply == Done;
    }

    method RotateVendor(p: RotationPorts) returns (outcome: RotationOutcome)
      requires trace == [control]
      modifies this
      ensures Rotation(trace, outcome) == Rotate(old(control), p)
      ensures control == Rotation(trace, outcome).Last()
    {
      if !p.authorized {
        return Unauthorized;
      }
      if p.inspect.None? {
        return InspectionFailed;
      }
      var capability := p.inspect.value;
      if !capability.portable || !capability.recoveryAvailable {
        return Unsupported;
      }
      var installed := false;
      var removed := false;
      var ok := Apply(p.install, control.(next := true));
      if ok {
        installed := true;
        if p.verify == Yes {
          control := control.(verified := true);
          trace := trace + [control];
          if p.snapshot.Some? && p.snapshot.value.account == capability.account
             && p.snapshot.value.chainId == capability.chainId
             && p.snapshot.value.did == capability.did {
            removed := Apply(p.remove, control.(previous := false));
          }
        }
      }
      if removed {
        return Rotated(capability.account, Shown(capability.did));
      }
      if installed {
        var undone := Apply(p.rollback, control.(next := false));
        if !undone {
          return RollbackFailed;
        }
      }
      outcome := RotationFailed;
    }
  }

  predicate FailureAtomic(p: RotationPorts) {
    p.install != Torn && p.remove != Torn && p.rollback != Torn
  }

  /** With failure-atomic ports some verified control path works at every step; success means the new
      control alone, verified, and that account, chain and DID were after its installation what they were
      before; any failure leaves the old control intact, and without the new one unless the rollback
      itself was refused. */
  lemma RotationIsSafe(p: RotationPorts)
    requires FailureAtomic(p)
    ensures
      var r := Rotate(Control(true, false, false), p);
      && (forall c | c in r.trace :: Controlled(c))
      && (r.outcome.Rotated? ==>
            && r.Last() == Control(false, true, true) && p.inspect.Some? && p.snapshot.Some?
            && p.snapshot.value.account == p.inspect.value.account == r.outcome.account
            && p.snapshot.value.chainId == p.inspect.value.chainId && p.snapshot.value.did == p.inspect.value.did)
      && (!r.outcome.Rotated? ==> r.Last().previous)
      && (r.Last().next <==> r.outcome.Rotated? || r.outcome == RollbackFailed)
  {}

  /** Without that assumption: control is lost at some step exactly when removing the old control works
      but reports failure, and the rollback then takes the new one away too. */
  lemma ControlLostExactly(p: RotationPorts)
    ensures
      (exists c | c in Rotate(Control(true, false, false), p).trace :: !Controlled(c)) <==>
        NextInForce(p) && p.remove == Torn && Happens(p.rollback)
  {
    var r := Rotate(Control(true, false, false), p);
    if NextInForce(p) && p.remove == Torn && Happens(p.rollback) {
      assert r.Last() in r.trace && !Controlled(r.Last());
    }
  }

  /** The claim of the error message, that the old control remains authoritative, holds exactly unless
      its removal worked but reported failure. */
  lemma FailureClaimExactly(p: RotationPorts)
    requires !Rotate(Control(true, false, false), p).outcome.Rotated?
    ensures Rotate(Control(true, false, false), p).Last().previous <==> !(NextInForce(p) && p.remove == Torn)
  {}

  /** A reported failure leaves a new control behind exactly when installing it worked but reported
      failure, or the rollback was refused. */
  lemma LeftoverControlExactly(p: RotationPorts)
    requires !Rotate(Control(true, false, false), p).outcome.Rotated?
    ensures Rotate(Control(true, false, false), p).Last().next <==>
      p.authorized && Supported(p) && (p.install == Torn || (p.install == Done && p.rollback == Refused))
  {}

  /** The account and chain stay, and the DID. */
  predicate AccountStays(p: RotationPorts) {
    p.inspect.Some? && p.snapshot.Some? && p.snapshot.value.account == p.inspect.value.account
    && p.snapshot.value.chainId == p.inspect.value.chainId && p.snapshot.value.did == p.inspect.value.did
  }

  /** The vendor says that the account can be moved and recovered. */
  predicate MayRotate(p: RotationPorts) {
    p.authorized && p.inspect.Some? && p.inspect.value.portable && p.inspect.value.recoveryAvailable
  }

  /** A rotation ends well exactly when every port does as it is asked and the account stays what it was, and says
      so with its DID, if there is one. */
  lemma OutcomeExactly(c: Control, p: RotationPorts)
    ensures
      var outcome := Rotate(c, p).outcome;
      var late := p.verify.Yes? && AccountStays(p) && p.remove.Done?;
      && (outcome == Unauthorized <==> !p.authorized)
      && (outcome == InspectionFailed <==> p.authorized && p.inspect.None?)
      && (outcome == Unsupported <==> p.authorized && p.inspect.Some? && !MayRotate(p))
      && (outcome.Rotated? <==> MayRotate(p) && p.install.Done? && late)
      && (outcome == RotationFailed <==> MayRotate(p) && (!p.install.Done? || (!late && p.rollback.Done?)))
      && (outcome == RollbackFailed <==> MayRotate(p) && p.install.Done? && !late && !p.rollback.Done?)
      && (outcome.Rotated? ==>
            && outcome.account == p.inspect.value.account
            && outcome.did == if p.inspect.value.did == Some([]) then None else p.inspect.value.did)
  {}

  /** The control left: the new one is in place when it was installed and not rolled back, and the old one gone when
      all went well up to its removal. */
  lemma ControlExactly(p: RotationPorts)
    ensures
      var (left, tried) := (Rotate(Control(true, false, false), p).Last(), MayRotate(p) && p.install.Done?);
      var checked := tried && p.verify.Yes?;
      var removed := checked && AccountStays(p);
      && left.previous == (!removed || p.remove.Refused?)
      && left.verified == checked
      && left.next == ((MayRotate(p) && p.install.Torn?)
                       || (tried && ((removed && p.remove.Done?) || p.rollback.Refused?)))
  {}

  // ------------------------------------------------------------------ import

  /** What an import has done to the target. */
  datatype Target = Target(prepared: bool, committed: bool)

  /** `handleDefined`: the handle that `prepare` returns is not undefined. */
  datatype ImportPorts = ImportPorts(prepare: Reply, handleDefined: bool, commit: Reply, verify: Check, rollback: Reply)

  datatype ImportOutcome = Imported | ImportFailed | ImportRollbackFailed

  function Import(p: ImportPorts): (Target, ImportOutcome) {
    var prepared := Target(Happens(p.prepare), false);
    if p.prepare != Done then (prepared, ImportFailed)
    else
      var committed := Target(true, Happens(p.commit));
      if p.commit == Done && p.verify == Yes then (committed, Imported)
      else if !p.handleDefined then (committed, ImportFailed)
      else
        (if Happens(p.rollback) then Target(false, false) else committed,
         if p.rollback == Done then ImportFailed else ImportRollbackFailed)
  }

  /** With failure-atomic ports the target ends committed and verified, or exactly as it was, or the
      import says that the rollback failed; this holds exactly unless an undefined handle is mistaken
      for a failed preparation. */
  lemma ImportIsAllOrNothing(p: ImportPorts)
    requires p.prepare != Torn && p.commit != Torn && p.rollback != Torn
    ensures
      var (target, outcome) := Import(p);
      && (outcome == Imported <==> p.prepare == Done && p.commit == Done && p.verify == Yes)
      && (outcome == Imported ==> target.committed)
      && ((outcome == ImportFailed ==> target == Target(false, false))
          <==> !(p.prepare == Done && !p.handleDefined && !(p.commit == Done && p.verify == Yes)))
  {}

  /** What an import does to the target, and says of it. */
  lemma ImportExactly(p: ImportPorts)
    ensures
      var (target, outcome) := Import(p);
      var (began, good) := (p.prepare.Done?, p.commit.Done? && p.verify.Yes?);
      var undone := began && !good && p.handleDefined;
      && (outcome == Imported <==> began && good)
      && (outcome == ImportRollbackFailed <==> undone && !p.rollback.Done?)
      && target.prepared == (!p.prepare.Refused? && (undone ==> p.rollback.Refused?))
      && target.committed == (began && !p.commit.Refused? && (undone ==> p.rollback.Refused?))
  {}

  /** An import that reports a rollback with the target committed. */
  lemma UndefinedHandleIsNotRolledBack() returns (p: ImportPorts)
    ensures p.prepare == Done && p.commit == Done && p.verify == No && p.rollback == Done
    ensures Import(p) == (Target(true, true), ImportFailed)
  {
    p := ImportPorts(Done, false, Done, No, Done);
  }
}
