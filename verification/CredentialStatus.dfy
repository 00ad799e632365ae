/**
 Suspending and revoking issued credentials.  `changeStatus` reads the record, waits for the status
 publisher, and writes the record it read with the new status, so that calls interleave at the wait.
 */
module CredentialStatus {
  import opened Strings
  import opened Wrappers
  import opened IssuerService

  datatype Status = Valid | Suspended | Revoked

  /** A change that waits for the publisher; its record was read before. */
  datatype Change = Change(storageKey: Text, status: Status)

  datatype Answer = Refused(error: Error) | AlreadyRevoked | Unchanged | Waits(change: Change)

  type Records = map<Text, Status>

  /** `changeStatus` up to its wait. */
  function Begin(records: Records, actor: Actor, credentialId: Text, status: Status): Answer {
    var refusal := Refusal(actor, "credentials:status");
    var storageKey := Key(actor.tenantId, credentialId);
    if refusal.Some? then Refused(refusal.value)
    else if !IsId(credentialId) then Refused(InvalidId)
    else if storageKey !in records then Refused(NotFound)
    else if records[storageKey] == Revoked && status != Revoked then AlreadyRevoked
    else if records[storageKey] == status then Unchanged
    else Waits(Change(storageKey, status))
  }

  /** And from it on: the record is not read again. */
  function End(records: Records, c: Change, published: bool): Records {
    if published then records[c.storageKey := c.status] else records
  }

  class CredentialRecords {
    var records: Records

    constructor ()
      ensures records == map[]
    {
      records := map[];
    }

    method ChangeBegins(actor: Actor, credentialId: Text, status: Status) returns (answer: Answer)
      ensures answer == Begin(records, actor, credentialId, status)
    {
      var refusal := Refusal(actor, "credentials:status");
      if refusal.Some? {
        return Refused(refusal.value);
      }
      if !IsId(credentialId) {
        return Refused(InvalidId);
      }
      var storageKey := Key(actor.tenantId, credentialId);
      if storageKey !in records {
        return Refused(NotFound);
      }
      var current := records[storageKey];
      if current == Revoked && status != Revoked {
        return AlreadyRevoked;
      }
      answer := if current == status then Unchanged else Waits(Change(storageKey, status));
    }

    method ChangeEnds(c: Change, published: bool)
      modifies this
      ensures records == End(old(records), c, published)
    {
      if published {
        records := records[c.storageKey := c.status];
      }
    }
  }

  /** A change goes to the publisher exactly for a credential of the tenant that has another status and is not
      revoked; the other answers tell what is missing, first things first. */
  lemma BeginExactly(records: Records, actor: Actor, credentialId: Text, status: Status)
    ensures
      var (answer, storageKey) := (Begin(records, actor, credentialId, status), Key(actor.tenantId, credentialId));
      var may := IsId(actor.tenantId) && IsId(actor.principalId) && "credentials:status" in actor.scopes;
      var known := may && IsId(credentialId) && storageKey in records;
      && (answer.Waits? <==> known && records[storageKey] != status && records[storageKey] != Revoked)
      && (answer.Waits? ==> answer.change == Change(storageKey, status))
      && (answer.AlreadyRevoked? <==> known && records[storageKey] == Revoked && status != Revoked)
      && (answer.Unchanged? <==> known && records[storageKey] == status)
      && (answer == Refused(NotFound) <==> may && IsId(credentialId) && storageKey !in records)
      && (answer.Refused? <==> !known)
  {
    hide IsId, Key;
  }

  // ------------------------------------------------------------ interleavings

  datatype State = State(records: Records, calls: map<nat, Change>)

  /** Issuing makes a record under a key of its own; the other two are the halves of a change. */
  datatype Event =
    | Issues(storageKey: Text)
    | Begins(call: nat, actor: Actor, credentialId: Text, revoke: bool)
    | Ends(call: nat, published: bool)

  /** One step; an event that does not fit the calls in flight changes nothing. */
  function Step(st: State, e: Event): State {
    match e
    case Issues(k) => if k in st.records then st else st.(records := st.records[k := Valid])
    case Begins(call, actor, credentialId, revoke) =>
      if call in st.calls then st
      else
        (match Begin(st.records, actor, credentialId, if revoke then Revoked else Suspended)
         case Waits(change) => st.(calls := st.calls[call := change])
         case _ => st)
    case Ends(call, published) =>
      if call !in st.calls then st else State(End(st.records, st.calls[call], published), st.calls - {call})
  }

  function Run(st: State, events: seq<Event>): State
    decreases |events|
  {
    if |events| == 0 then st else Run(Step(st, events[0]), events[1..])
  }

  predicate IsRevoked(st: State, k: Text) {
    k in st.records && st.records[k] == Revoked
  }

  /** The credential is revoked now and after every prefix of the run. */
  predicate StaysRevoked(st: State, events: seq<Event>, k: Text)
    decreases |events|
  {
    IsRevoked(st, k) && (|events| == 0 || StaysRevoked(Step(st, events[0]), events[1..], k))
  }

  /** The suspensions of a credential that wait for the publisher. */
  function Suspending(st: State, k: Text): set<nat> {
    set c | c in st.calls && st.calls[c] == Change(k, Suspended)
  }

  /** None of these calls ends well in the run; a call that ends otherwise is done with. */
  predicate NoneEnds(calls: set<nat>, events: seq<Event>)
    decreases |events|
  {
    |events| == 0 ||
    if events[0].Ends? && events[0].call in calls then !events[0].published
       && NoneEnds(calls - {events[0].call}, events[1..])
    else NoneEnds(calls, events[1..])
  }

  /** The calls in flight are changes to a status that `changeStatus` may set. */
  predicate Sound(st: State) {
    forall c | c in st.calls :: st.calls[c].status != Valid
  }

  lemma StepSound(st: State, e: Event)
    requires Sound(st)
    ensures Sound(Step(st, e))
  {
    hide Key, IsId, Refusal;
  }

  lemma {:induction false} RunSound(st: State, events: seq<Event>)
    requires Sound(st)
    ensures Sound(Run(st, events))
    decreases |events|
  {
    hide Step, Sound;
    if |events| > 0 {
      StepSound(st, events[0]);
      RunSound(Step(st, events[0]), events[1..]);
    }
  }

  /** A step leaves a revoked credential revoked unless it ends one of its suspensions, and no suspension of
      it begins. */
  lemma RevokedStep(st: State, e: Event, k: Text)
    requires Sound(st) && IsRevoked(st, k)
    ensures
      var next := Step(st, e);
      && (IsRevoked(next, k) <==> !(e.Ends? && e.call in Suspending(st, k) && e.published))
      && Suspending(next, k) == if e.Ends? then Suspending(st, k) - {e.call} else Suspending(st, k)
  {
    hide Key, IsId, Refusal;
    var next := Step(st, e);
    if e.Begins? && next != st {
      assert next.calls == st.calls[e.call := next.calls[e.call]];
      assert next.calls[e.call] != Change(k, Suspended);
    }
  }

  lemma {:induction false} StaysRevokedFrom(st: State, events: seq<Event>, k: Text)
    requires Sound(st) && IsRevoked(st, k)
    ensures StaysRevoked(st, events, k) <==> NoneEnds(Suspending(st, k), events)
    decreases |events|
  {
    hide Step, IsRevoked, Sound, Suspending;
    if |events| > 0 {
      var e, next := events[0], Step(st, events[0]);
      RevokedStep(st, e, k);
      StepSound(st, e);
      if IsRevoked(next, k) {
        StaysRevokedFrom(next, events[1..], k);
        assert !(e.Ends? && e.call in Suspending(st, k)) ==> Suspending(next, k) == Suspending(st, k);
      } else {
        assert !StaysRevoked(next, events[1..], k);
      }
    }
  }

  function Start(): State {
    State(map[], map[])
  }

  lemma StartSound()
    ensures Sound(Start())
  {}

  /** In every interleaving, a credential that is revoked at some moment stays revoked from then on if and only
      if no suspension that waited for the publisher at that moment, having read the record before, ends well. */
  lemma StaysRevokedExactly(before: seq<Event>, after: seq<Event>, k: Text)
    ensures
      var st := Run(Start(), before);
      IsRevoked(st, k) ==> (StaysRevoked(st, after, k) <==> NoneEnds(Suspending(st, k), after))
  {
    hide Run, IsRevoked, StaysRevoked, NoneEnds, Suspending, Sound;
    StartSound();
    RunSound(Start(), before);
    if IsRevoked(Run(Start(), before), k) {
      StaysRevokedFrom(Run(Start(), before), after, k);
    }
  }

  lemma {:induction false} NothingEnds(events: seq<Event>)
    ensures NoneEnds({}, events)
    decreases |events|
  {
    if |events| > 0 {
      NothingEnds(events[1..]);
    }
  }

  /** In particular revocation is for good when nothing else waits for the credential at that moment. */
  lemma RevokedForGood(before: seq<Event>, after: seq<Event>, k: Text)
    requires
      var st := Run(Start(), before);
      IsRevoked(st, k) && forall c | c in st.calls :: st.calls[c].storageKey != k
    ensures StaysRevoked(Run(Start(), before), after, k)
  {
    hide Run, IsRevoked, StaysRevoked, NoneEnds;
    StaysRevokedExactly(before, after, k);
    assert Suspending(Run(Start(), before), k) == {};
    NothingEnds(after);
  }

  lemma Next(st: State, events: seq<Event>)
    requires |events| > 0
    ensures Run(st, events) == Run(Step(st, events[0]), events[1..])
  {
    hide Step;
  }

  /** A suspension that begins before a revocation and ends after it. */
  function Overwriting(actor: Actor, credentialId: Text): seq<Event> {
    [Issues(Key(actor.tenantId, credentialId)), Begins(0, actor, credentialId, false),
      Begins(1, actor, credentialId, true),
     Ends(1, true), Ends(0, true)]
  }

  /** It leaves a revoked credential suspended, for any actor who may change statuses and any credential. */
  lemma SuspensionOverwrites(actor: Actor, credentialId: Text)
    requires Refusal(actor, "credentials:status").None? && IsId(credentialId)
    ensures
      var k := Key(actor.tenantId, credentialId);
      && IsRevoked(Run(Start(), Overwriting(actor, credentialId)[..4]), k)
      && Run(Start(), Overwriting(actor, credentialId)) == State(map[k := Suspended], map[])
  {
    hide Key, IsId, Refusal;
    var (k, ms) := (Key(actor.tenantId, credentialId), Overwriting(actor, credentialId));
    var st1 := Step(Start(), ms[0]);
    var st2 := Step(st1, ms[1]);
    var st3 := Step(st2, ms[2]);
    var st4 := Step(st3, ms[3]);
    assert st3 == State(map[k := Valid], map[0 := Change(k, Suspended), 1 := Change(k, Revoked)]);
    assert st4 == State(map[k := Revoked], map[0 := Change(k, Suspended)]);
    FirstFour(Start(), ms);
  }

  lemma FirstFour(st: State, ms: seq<Event>)
    requires |ms| == 5
    ensures
      var st4 := Step(Step(Step(Step(st, ms[0]), ms[1]), ms[2]), ms[3]);
      Run(st, ms[..4]) == st4 && Run(st, ms) == Step(st4, ms[4])
  {
    hide Step;
    var (st1, front) := (Step(st, ms[0]), ms[..4]);
    var st2 := Step(st1, ms[1]);
    var st3 := Step(st2, ms[2]);
    var st4 := Step(st3, ms[3]);
    assert ms[1..][1..] == ms[2..] && ms[2..][1..] == ms[3..] && ms[3..][1..] == ms[4..] && ms[4..][1..] == [];
    assert front[1..][1..] == front[2..] && front[2..][1..] == front[3..] && front[3..][1..] == [];
    Next(st, ms);
    Next(st1, ms[1..]);
    Next(st2, ms[2..]);
    Next(st3, ms[3..]);
    Next(st4, ms[4..]);
    Next(st, front);
    Next(st1, front[1..]);
    Next(st2, front[2..]);
    Next(st3, front[3..]);
    assert Run(Step(st4, ms[4]), []) == Step(st4, ms[4]) && Run(st4, []) == st4;
  }
}
