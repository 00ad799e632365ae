/** Windowed quotas of operational signers: the reservation store and what any run of it admits. */
module SignerPolicy {
  import opened Strings
  import opened Wrappers

  datatype Frequency = Frequency(windowSeconds: int, maxOperations: int, maxTotalAmount: Option<nat>)

  /** What `validatePolicy` demands of a frequency policy. */
  predicate ValidFrequency(f: Frequency) {
    f.windowSeconds >= 1 && f.maxOperations >= 1
  }

  datatype Usage = Usage(windowStart: int, count: nat, amount: nat)

  datatype Input = Input(requestId: Text, frequencyKey: Text, at: int, amount: nat, frequency: Option<Frequency>)

  datatype Outcome = Reserved | Replay | FrequencyExceeded

  datatype Store = Store(usage: map<Text, Usage>, consumedRequestIds: set<Text>)

  /** Start of the aligned window that holds t. */
  function WindowOf(t: int, seconds: int): int
    requires seconds >= 1
  {
    t / seconds * seconds
  }

  predicate Usable(i: Input) {
    i.frequency.Some? ==> ValidFrequency(i.frequency.value)
  }

  function Start(i: Input): int
    requires Usable(i)
  {
    if i.frequency.Some? then WindowOf(i.at, i.frequency.value.windowSeconds) else i.at
  }

  /** What the key has used of the input's window: only the latest window of a key is remembered. */
  function Current(usage: map<Text, Usage>, i: Input): Usage
    requires Usable(i)
  {
    if i.frequencyKey in usage && usage[i.frequencyKey].windowStart == Start(i) then usage[i.frequencyKey]
    else Usage(Start(i), 0, 0)
  }

  predicate Exceeds(u: Usage, i: Input) {
    i.frequency.Some? &&
    (u.count >= i.frequency.value.maxOperations
     || (i.frequency.value.maxTotalAmount.Some? && u.amount + i.amount > i.frequency.value.maxTotalAmount.value))
  }

  function ReserveIn(st: Store, i: Input): (Store, Outcome)
    requires Usable(i)
  {
    var u := Current(st.usage, i);
    if i.requestId in st.consumedRequestIds then (st, Replay)
    else if Exceeds(u, i) then (st, FrequencyExceeded)
    else
      (Store(st.usage[i.frequencyKey := Usage(u.windowStart, u.count + 1, u.amount + i.amount)],
             st.consumedRequestIds + {i.requestId}), Reserved)
  }

  class InMemoryPolicyStore {
    var usage: map<Text, Usage>
    var consumedRequestIds: set<Text>

    function Contents(): Store
      reads this
    {
      Store(usage, consumedRequestIds)
    }

    constructor ()
      ensures Contents() == Store(map[], {})
    {
      usage, consumedRequestIds := map[], {};
    }

    method Reserve(i: Input) returns (outcome: Outcome)
      requires Usable(i)
      modifies this
      ensures (Contents(), outcome) == ReserveIn(old(Contents()), i)
    {
      if i.requestId in consumedRequestIds {
        return Replay;
      }
      var start := if i.frequency.Some? then i.at / i.frequency.value.windowSeconds * i.frequency.value.windowSeconds
        else i.at;
      var entry := Usage(start, 0, 0);
      if i.frequencyKey in usage && usage[i.frequencyKey].windowStart == start {
        entry := usage[i.frequencyKey];
      }
      if i.frequency.Some? {
        var window := i.frequency.value;
        if entry.count >= window.maxOperations {
          return FrequencyExceeded;
        }
        if window.maxTotalAmount.Some? && entry.amount + i.amount > window.maxTotalAmount.value {
          return FrequencyExceeded;
        }
      }
      usage := usage[i.frequencyKey := Usage(start, entry.count + 1, entry.amount + i.amount)];
      consumedRequestIds := consumedRequestIds + {i.requestId};
      outcome := Reserved;
    }
  }

  // ------------------------------------------------------------------- runs

  /** The reservations granted, in order. */
  function Granted(st: Store, inputs: seq<Input>): seq<Input>
    requires forall i | i in inputs :: Usable(i)
    decreases |inputs|
  {
    if |inputs| == 0 then []
    else
      assert inputs[0] in inputs;
      var (next, outcome) := ReserveIn(st, inputs[0]);
      (if outcome == Reserved then [inputs[0]] else []) + Granted(next, inputs[1..])
  }

  function After(st: Store, inputs: seq<Input>): Store
    requires forall i | i in inputs :: Usable(i)
    decreases |inputs|
  {
    if |inputs| == 0 then st
    else
      assert inputs[0] in inputs;
      After(ReserveIn(st, inputs[0]).0, inputs[1..])
  }

  predicate Counts(i: Input, key: Text, lo: int, hi: int) {
    i.frequencyKey == key && lo <= i.at < hi
  }

  /** How many reservations of the key fall in [lo, hi). */
  function Number(granted: seq<Input>, key: Text, lo: int, hi: int): nat {
    if |granted| == 0 then 0
    else (if Counts(granted[0], key, lo, hi) then 1 else 0) + Number(granted[1..], key, lo, hi)
  }

  /** The amount they reserve. */
  function Total(granted: seq<Input>, key: Text, lo: int, hi: int): nat {
    if |granted| == 0 then 0
    else (if Counts(granted[0], key, lo, hi) then granted[0].amount else 0) + Total(granted[1..], key, lo, hi)
  }

  /** Every request for a key carries the key's frequency policy. */
  predicate FixedPolicy(inputs: seq<Input>, key: Text, f: Frequency) {
    forall i | i in inputs && i.frequencyKey == key :: i.frequency == Some(f)
  }

  /** The window of an input of the key. */
  predicate InWindow(i: Input, key: Text, seconds: int, w: int)
    requires seconds >= 1
  {
    i.frequencyKey == key && WindowOf(i.at, seconds) == w
  }

  /** The inputs of the key do not come back to the window w, once they have left it. */
  predicate LeftForGood(inputs: seq<Input>, key: Text, seconds: int, w: int)
    requires seconds >= 1
  {
    forall j, k | 0 <= j < k < |inputs| && inputs[j].frequencyKey == key && InWindow(inputs[k], key, seconds, w) ::
      InWindow(inputs[j], key, seconds, w)
  }

  /** Once the key has turned to another window, it does not come back: no window is entered again. Times
      may fall inside a window, and those of other keys may fall anyhow. */
  predicate NeverReentered(inputs: seq<Input>, key: Text, seconds: int)
    requires seconds >= 1
  {
    |inputs| == 0 || (
      && NeverReentered(inputs[1..], key, seconds)
      && (inputs[0].frequencyKey == key ==> LeftForGood(inputs[1..], key, seconds, WindowOf(inputs[0].at, seconds))))
  }

  /** Windows that never fall are never entered again. */
  lemma {:induction false} RisingIsNeverReentered(inputs: seq<Input>, key: Text, seconds: int)
    requires seconds >= 1
    requires forall i, j | 0 <= i < j < |inputs| && inputs[i].frequencyKey == inputs[j].frequencyKey == key ::
      WindowOf(inputs[i].at, seconds) <= WindowOf(inputs[j].at, seconds)
    ensures NeverReentered(inputs, key, seconds)
    decreases |inputs|
  {
    hide WindowOf;
    if |inputs| > 0 {
      var rest := inputs[1..];
      forall j | 0 <= j < |rest| ensures rest[j] == inputs[j + 1] {}
      RisingIsNeverReentered(rest, key, seconds);
    }
  }

  // -------------------------------------------------------- request ids, denials

  /** A refused reservation changes nothing. */
  lemma DeniedChangesNothing(st: Store, i: Input)
    requires Usable(i)
    ensures ReserveIn(st, i).1 != Reserved ==> ReserveIn(st, i).0 == st
    ensures ReserveIn(st, i).1 == Replay <==> i.requestId in st.consumedRequestIds
    ensures ReserveIn(st, i).1 == Reserved
      ==> ReserveIn(st, i).0.consumedRequestIds == st.consumedRequestIds + {i.requestId}
  {}

  lemma {:induction false} GrantedAreNew(st: Store, inputs: seq<Input>)
    requires forall i | i in inputs :: Usable(i)
    ensures forall g | g in Granted(st, inputs) :: g in inputs && g.requestId !in st.consumedRequestIds
    decreases |inputs|
  {
    hide ReserveIn, Usable;
    if |inputs| > 0 {
      assert inputs[0] in inputs;
      DeniedChangesNothing(st, inputs[0]);
      GrantedAreNew(ReserveIn(st, inputs[0]).0, inputs[1..]);
    }
  }

  /** A request id is granted at most once ever, under whatever keys, policies and times it is used. */
  lemma {:induction false} GrantedOnce(st: Store, inputs: seq<Input>)
    requires forall i | i in inputs :: Usable(i)
    ensures forall j, k | 0 <= j < k < |Granted(st, inputs)| ::
      Granted(st, inputs)[j].requestId != Granted(st, inputs)[k].requestId
    decreases |inputs|
  {
    hide ReserveIn, Usable;
    if |inputs| > 0 {
      assert inputs[0] in inputs;
      var next := ReserveIn(st, inputs[0]).0;
      DeniedChangesNothing(st, inputs[0]);
      GrantedOnce(next, inputs[1..]);
      GrantedAreNew(next, inputs[1..]);
      var rest := Granted(next, inputs[1..]);
      forall k | 0 <= k < |rest| && ReserveIn(st, inputs[0]).1 == Reserved
        ensures rest[k].requestId != inputs[0].requestId {
        assert rest[k] in rest;
      }
    }
  }

  // ---------------------------------------------------------- aligned windows

  /** What the store still allows the key in the window that starts at w. */
  function UsedCount(st: Store, key: Text, w: int): nat {
    if key in st.usage && st.usage[key].windowStart == w then st.usage[key].count else 0
  }

  function UsedAmount(st: Store, key: Text, w: int): nat {
    if key in st.usage && st.usage[key].windowStart == w then st.usage[key].amount else 0
  }

  predicate Aligned(w: int, seconds: int) {
    seconds >= 1 && w % seconds == 0
  }

  /** The inputs leave the window that the store remembers for good. */
  predicate LeavesForGood(st: Store, inputs: seq<Input>, key: Text, seconds: int)
    requires seconds >= 1
  {
    key in st.usage ==> LeftForGood(inputs, key, seconds, st.usage[key].windowStart)
  }

  lemma MultipleOf(d: int, seconds: int)
    requires seconds >= 1
    ensures d >= 1 ==> d * seconds >= seconds
    ensures d <= -1 ==> d * seconds <= -seconds
  {}

  lemma QuotientIs(t: int, seconds: int, q: int, r: int)
    requires t == q * seconds + r && 0 <= r < seconds
    ensures t / seconds == q && t % seconds == r
  {
    var d := q - t / seconds;
    assert d * seconds == t % seconds - r by {
      assert t == t / seconds * seconds + t % seconds;
    }
    MultipleOf(d, seconds);
  }

  lemma MultipleAligned(q: int, seconds: int)
    requires seconds >= 1
    ensures Aligned(q * seconds, seconds)
  {
    QuotientIs(q * seconds, seconds, q, 0);
  }

  lemma WindowExactly(t: int, w: int, seconds: int)
    requires Aligned(w, seconds)
    ensures w <= t < w + seconds <==> WindowOf(t, seconds) == w
    ensures Aligned(WindowOf(t, seconds), seconds) && WindowOf(t, seconds) <= t
  {
    var q := w / seconds;
    assert w == q * seconds;
    assert t == t / seconds * seconds + t % seconds;
    if w <= t < w + seconds {
      QuotientIs(t, seconds, q, t - w);
    }
    MultipleAligned(t / seconds, seconds);
  }

  /** What one grant adds to a window. */
  function Taken(granted: bool, i: Input, key: Text, w: int, f: Frequency): nat {
    if granted && Counts(i, key, w, w + f.windowSeconds) then 1 else 0
  }

  /** One reservation moves what is used of a window by what it takes, unless it takes the key elsewhere. */
  lemma StepBudget(st: Store, i: Input, key: Text, f: Frequency, w: int)
    requires Usable(i) && ValidFrequency(f) && Aligned(w, f.windowSeconds)
    requires i.frequencyKey == key ==> i.frequency == Some(f)
    requires i.frequencyKey == key ==>
      WindowOf(i.at, f.windowSeconds) == w || key !in st.usage || st.usage[key].windowStart != w
    ensures
      var (next, outcome) := ReserveIn(st, i);
      var taken := Taken(outcome == Reserved, i, key, w, f);
      && UsedCount(next, key, w) == UsedCount(st, key, w) + taken
      && UsedAmount(next, key, w) == UsedAmount(st, key, w) + taken * i.amount
      && (taken == 1 ==> UsedCount(next, key, w) <= f.maxOperations)
      && (taken == 1 && f.maxTotalAmount.Some? ==> UsedAmount(next, key, w) <= f.maxTotalAmount.value)
  {
    hide WindowOf;
    WindowExactly(i.at, w, f.windowSeconds);
  }

  lemma GrantedStep(st: Store, inputs: seq<Input>)
    requires |inputs| > 0 && forall i | i in inputs :: Usable(i)
    ensures
      var (next, outcome) := ReserveIn(st, inputs[0]);
      Granted(st, inputs) == (if outcome == Reserved then [inputs[0]] else []) + Granted(next, inputs[1..])
  {}

  lemma CountsStep(granted: bool, i: Input, rest: seq<Input>, key: Text, w: int, f: Frequency)
    ensures
      var all := (if granted then [i] else []) + rest;
      && Number(all, key, w, w + f.windowSeconds)
        == Taken(granted, i, key, w, f) + Number(rest, key, w, w + f.windowSeconds)
      && Total(all, key, w, w + f.windowSeconds)
        == Taken(granted, i, key, w, f) * i.amount + Total(rest, key, w, w + f.windowSeconds)
  {
    if granted {
      assert ([i] + rest)[1..] == rest;
    } else {
      assert [] + rest == rest;
    }
  }

  lemma {:induction false} NothingInWindow(granted: seq<Input>, key: Text, lo: int, hi: int)
    requires forall g | g in granted :: !Counts(g, key, lo, hi)
    ensures Number(granted, key, lo, hi) == 0 && Total(granted, key, lo, hi) == 0
  {
    if |granted| > 0 {
      assert granted[0] in granted;
      NothingInWindow(granted[1..], key, lo, hi);
    }
  }

  /** After a reservation, the rest leaves the window remembered then for good. */
  lemma StillLeaves(st: Store, inputs: seq<Input>, key: Text, f: Frequency)
    requires |inputs| > 0 && Usable(inputs[0]) && ValidFrequency(f)
    requires NeverReentered(inputs, key, f.windowSeconds) && LeavesForGood(st, inputs, key, f.windowSeconds)
    requires inputs[0].frequencyKey == key ==> inputs[0].frequency == Some(f)
    ensures LeavesForGood(ReserveIn(st, inputs[0]).0, inputs[1..], key, f.windowSeconds)
  {
    hide WindowOf, InWindow;
    forall j | 0 <= j < |inputs[1..]| ensures inputs[1..][j] == inputs[j + 1] {}
  }

  lemma TailNeverReentered(inputs: seq<Input>, key: Text, seconds: int)
    requires |inputs| > 0 && seconds >= 1 && NeverReentered(inputs, key, seconds)
    ensures NeverReentered(inputs[1..], key, seconds)
  {
    hide LeftForGood;
  }

  /** Inputs that have left a window for good get nothing more out of it. */
  lemma LeftWindow(st: Store, inputs: seq<Input>, key: Text, f: Frequency, w: int)
    requires ValidFrequency(f) && Aligned(w, f.windowSeconds) && |inputs| > 0
    requires (forall i | i in inputs :: Usable(i)) && LeavesForGood(st, inputs, key, f.windowSeconds)
    requires key in st.usage && st.usage[key].windowStart == w
    requires inputs[0].frequencyKey == key && WindowOf(inputs[0].at, f.windowSeconds) != w
    ensures Number(Granted(st, inputs), key, w, w + f.windowSeconds) == 0
    ensures Total(Granted(st, inputs), key, w, w + f.windowSeconds) == 0
  {
    hide ReserveIn, Usable, WindowOf, Granted, Aligned, Number, Total;
    GrantedAreNew(st, inputs);
    forall g | g in Granted(st, inputs) ensures !Counts(g, key, w, w + f.windowSeconds) {
      var k :| 0 <= k < |inputs| && inputs[k] == g;
      WindowExactly(g.at, w, f.windowSeconds);
      assert k > 0 && InWindow(inputs[k], key, f.windowSeconds, w) ==> InWindow(inputs[0], key, f.windowSeconds, w);
    }
    NothingInWindow(Granted(st, inputs), key, w, w + f.windowSeconds);
  }

  /** A run never takes more of an aligned window than the window still has. */
  lemma {:induction false} WindowBudget(st: Store, inputs: seq<Input>, key: Text, f: Frequency, w: int)
    requires ValidFrequency(f) && Aligned(w, f.windowSeconds)
    requires (forall i | i in inputs :: Usable(i)) && FixedPolicy(inputs, key, f)
    requires NeverReentered(inputs, key, f.windowSeconds) && LeavesForGood(st, inputs, key, f.windowSeconds)
    ensures UsedCount(st, key, w) <= f.maxOperations ==>
      UsedCount(st, key, w) + Number(Granted(st, inputs), key, w, w + f.windowSeconds) <= f.maxOperations
    ensures f.maxTotalAmount.Some? && UsedAmount(st, key, w) <= f.maxTotalAmount.value ==>
      UsedAmount(st, key, w) + Total(Granted(st, inputs), key, w, w + f.windowSeconds) <= f.maxTotalAmount.value
    decreases |inputs|
  {
    hide ReserveIn, Usable, Aligned, NeverReentered, LeavesForGood, WindowOf, Granted, UsedCount, UsedAmount, Number,
      Total, Taken;
    if |inputs| == 0 {
      GrantedNothing(st);
      NothingInWindow([], key, w, w + f.windowSeconds);
    } else {
      var first, rest := inputs[0], inputs[1..];
      assert first in inputs;
      if first.frequencyKey == key && WindowOf(first.at, f.windowSeconds) != w && key in st.usage
         && st.usage[key].windowStart == w {
        LeftWindow(st, inputs, key, f, w);
      } else {
        var (next, outcome) := ReserveIn(st, first);
        StillLeaves(st, inputs, key, f);
        TailNeverReentered(inputs, key, f.windowSeconds);
        WindowBudget(next, rest, key, f, w);
        StepBudget(st, first, key, f, w);
        GrantedStep(st, inputs);
        CountsStep(outcome == Reserved, first, Granted(next, rest), key, w, f);
        TakenCases(outcome == Reserved, first, key, w, f);
      }
    }
  }

  lemma GrantedNothing(st: Store)
    ensures Granted(st, []) == []
  {}

  lemma TakenCases(granted: bool, i: Input, key: Text, w: int, f: Frequency)
    ensures Taken(granted, i, key, w, f) == 0 || Taken(granted, i, key, w, f) == 1
    ensures Taken(granted, i, key, w, f) * i.amount == if Taken(granted, i, key, w, f) == 0 then 0 else i.amount
  {}

  // ---------------------------------------------------------------- theorems

  function Empty(): Store {
    Store(map[], {})
  }

  /** What a run grants, it grants by itself. */
  lemma {:induction false} GrantedAgain(st: Store, inputs: seq<Input>)
    requires forall i | i in inputs :: Usable(i)
    ensures forall g | g in Granted(st, inputs) :: Usable(g)
    ensures Granted(st, Granted(st, inputs)) == Granted(st, inputs)
    decreases |inputs|
  {
    hide ReserveIn, Usable, Granted;
    GrantedAreNew(st, inputs);
    if |inputs| == 0 {
      GrantedNothing(st);
    } else {
      assert inputs[0] in inputs;
      var (next, outcome) := ReserveIn(st, inputs[0]);
      DeniedChangesNothing(st, inputs[0]);
      GrantedAgain(next, inputs[1..]);
      GrantedStep(st, inputs);
      if outcome == Reserved {
        var granted := [inputs[0]] + Granted(next, inputs[1..]);
        assert granted[1..] == Granted(next, inputs[1..]);
        GrantedStep(st, granted);
      } else {
        assert Granted(st, inputs) == Granted(next, inputs[1..]);
      }
    }
  }

  /** With one policy for the key, and no window entered again by what is granted to the key, each aligned
      window admits at most `maxOperations` requests and `maxTotalAmount` in all. */
  lemma WindowQuota(inputs: seq<Input>, key: Text, f: Frequency, w: int)
    requires ValidFrequency(f) && Aligned(w, f.windowSeconds) && forall i | i in inputs :: Usable(i)
    requires FixedPolicy(Granted(Empty(), inputs), key, f)
      && NeverReentered(Granted(Empty(), inputs), key, f.windowSeconds)
    ensures Number(Granted(Empty(), inputs), key, w, w + f.windowSeconds) <= f.maxOperations
    ensures f.maxTotalAmount.Some? ==>
      Total(Granted(Empty(), inputs), key, w, w + f.windowSeconds) <= f.maxTotalAmount.value
  {
    hide Granted, Number, Total, Usable, FixedPolicy, NeverReentered;
    GrantedAgain(Empty(), inputs);
    WindowBudget(Empty(), Granted(Empty(), inputs), key, f, w);
  }

  lemma {:induction false} GrantedLeave(st: Store, inputs: seq<Input>, key: Text, seconds: int, w: int)
    requires seconds >= 1 && (forall i | i in inputs :: Usable(i)) && LeftForGood(inputs, key, seconds, w)
    ensures LeftForGood(Granted(st, inputs), key, seconds, w)
    decreases |inputs|
  {
    hide ReserveIn, Usable, Granted, InWindow;
    if |inputs| == 0 {
      GrantedNothing(st);
    } else {
      assert inputs[0] in inputs;
      var next, rest := ReserveIn(st, inputs[0]).0, inputs[1..];
      forall j | 0 <= j < |rest| ensures rest[j] == inputs[j + 1] {}
      GrantedLeave(next, rest, key, seconds, w);
      GrantedStep(st, inputs);
      GrantedAreNew(next, rest);
      var granted := Granted(next, rest);
      forall k | 0 <= k < |granted| && InWindow(granted[k], key, seconds, w) && inputs[0].frequencyKey == key
        ensures InWindow(inputs[0], key, seconds, w) {
        assert granted[k] in granted;
        var n :| 0 <= n < |rest| && rest[n] == granted[k];
        assert inputs[n + 1] == rest[n];
      }
    }
  }

  /** Requests that never come back to a window are granted so. */
  lemma {:induction false} GrantedNeverReenter(st: Store, inputs: seq<Input>, key: Text, seconds: int)
    requires seconds >= 1 && (forall i | i in inputs :: Usable(i)) && NeverReentered(inputs, key, seconds)
    ensures NeverReentered(Granted(st, inputs), key, seconds)
    decreases |inputs|
  {
    hide ReserveIn, Usable, Granted, WindowOf, LeftForGood;
    if |inputs| == 0 {
      GrantedNothing(st);
    } else {
      assert inputs[0] in inputs;
      var next, rest := ReserveIn(st, inputs[0]).0, inputs[1..];
      GrantedNeverReenter(next, rest, key, seconds);
      GrantedStep(st, inputs);
      if inputs[0].frequencyKey == key {
        GrantedLeave(next, rest, key, seconds, WindowOf(inputs[0].at, seconds));
      }
      assert ([inputs[0]] + Granted(next, rest))[1..] == Granted(next, rest)
        && [] + Granted(next, rest) == Granted(next, rest);
    }
  }

  lemma {:induction false} SplitInterval(granted: seq<Input>, key: Text, lo: int, mid: int, hi: int, a: int, b: int)
    requires lo <= a <= b <= hi && lo <= mid <= hi
    ensures Number(granted, key, a, b) <= Number(granted, key, lo, mid) + Number(granted, key, mid, hi)
    ensures Total(granted, key, a, b) <= Total(granted, key, lo, mid) + Total(granted, key, mid, hi)
  {
    if |granted| > 0 {
      SplitInterval(granted[1..], key, lo, mid, hi, a, b);
    }
  }

  /** Hence any interval as long as a window admits at most twice each. */
  lemma IntervalQuota(inputs: seq<Input>, key: Text, f: Frequency, a: int)
    requires ValidFrequency(f)
    requires forall i | i in inputs :: Usable(i)
    requires FixedPolicy(Granted(Empty(), inputs), key, f)
      && NeverReentered(Granted(Empty(), inputs), key, f.windowSeconds)
    ensures Number(Granted(Empty(), inputs), key, a, a + f.windowSeconds) <= 2 * f.maxOperations
    ensures f.maxTotalAmount.Some? ==>
      Total(Granted(Empty(), inputs), key, a, a + f.windowSeconds) <= 2 * f.maxTotalAmount.value
  {
    hide Granted, Number, Total, Usable, FixedPolicy, NeverReentered, WindowOf, Aligned;
    var n := f.windowSeconds;
    var w := WindowOf(a, n);
    WindowHolds(a, n);
    WindowQuota(inputs, key, f, w);
    WindowQuota(inputs, key, f, w + n);
    SplitInterval(Granted(Empty(), inputs), key, w, w + n, w + n + n, a, a + n);
  }

  lemma WindowHolds(a: int, seconds: int)
    requires seconds >= 1
    ensures Aligned(WindowOf(a, seconds), seconds) && Aligned(WindowOf(a, seconds) + seconds, seconds)
    ensures WindowOf(a, seconds) <= a < WindowOf(a, seconds) + seconds
  {
    hide WindowOf;
    AlignedZero(seconds);
    WindowExactly(a, 0, seconds);
    WindowExactly(a, WindowOf(a, seconds), seconds);
    NextAligned(WindowOf(a, seconds), seconds);
  }

  lemma AlignedZero(seconds: int)
    requires seconds >= 1
    ensures Aligned(0, seconds)
  {}

  lemma NextAligned(w: int, seconds: int)
    requires Aligned(w, seconds)
    ensures Aligned(w + seconds, seconds)
  {
    MultipleAligned(w / seconds + 1, seconds);
    assert (w / seconds + 1) * seconds == w + seconds;
  }

  // ------------------------------------------------- when quotas are exceeded

  /** Requests of one amount at one time, under ids of their own. */
  function Burst(key: Text, f: Frequency, ids: seq<Text>, amount: nat, t: int): (inputs: seq<Input>)
    requires ValidFrequency(f)
    ensures |inputs| == |ids| && forall i | i in inputs :: Usable(i) && i.frequencyKey == key && i.frequency == Some(f)
  {
    seq(|ids|, k requires 0 <= k < |ids| => Input(ids[k], key, t, amount, Some(f)))
  }

  predicate Fresh(ids: seq<Text>, consumed: set<Text>) {
    && (forall k | 0 <= k < |ids| :: ids[k] !in consumed)
    && (forall j, k | 0 <= j < k < |ids| :: ids[j] != ids[k])
  }

  /** What a burst may take in all. */
  predicate Fits(f: Frequency, count: nat, amount: nat) {
    count <= f.maxOperations && (f.maxTotalAmount.Some? ==> count * amount <= f.maxTotalAmount.value)
  }

  /** The key's window holds so many requests of the amount, and the ids are consumed. */
  predicate Holds(st: Store, key: Text, w: int, count: nat, amount: nat) {
    UsedCount(st, key, w) == count && UsedAmount(st, key, w) == count * amount
  }

  lemma BurstStep(st: Store, i: Input, f: Frequency, held: nat)
    requires i.frequency == Some(f) && ValidFrequency(f) && i.requestId !in st.consumedRequestIds
    requires Holds(st, i.frequencyKey, WindowOf(i.at, f.windowSeconds), held, i.amount) && Fits(f, held + 1, i.amount)
    ensures
      var (next, outcome) := ReserveIn(st, i);
      && outcome == Reserved && next.consumedRequestIds == st.consumedRequestIds + {i.requestId}
      && Holds(next, i.frequencyKey, WindowOf(i.at, f.windowSeconds), held + 1, i.amount)
      && i.frequencyKey in next.usage && next.usage[i.frequencyKey].windowStart == WindowOf(i.at, f.windowSeconds)
  {
    hide WindowOf;
    assert (held + 1) * i.amount == held * i.amount + i.amount;
  }

  lemma FitsLess(f: Frequency, count: nat, more: nat, amount: nat)
    requires count <= more && Fits(f, more, amount)
    ensures Fits(f, count, amount)
  {
    assert more * amount == count * amount + (more - count) * amount;
    assert (more - count) * amount >= 0;
  }

  /** A burst that fits what its window still has is granted as a whole. */
  lemma {:induction false} BurstGranted(st: Store, key: Text, f: Frequency, ids: seq<Text>, amount: nat, t: int,
                                        held: nat)
    requires ValidFrequency(f) && Fresh(ids, st.consumedRequestIds)
    requires Holds(st, key, WindowOf(t, f.windowSeconds), held, amount) && Fits(f, held + |ids|, amount)
    ensures Granted(st, Burst(key, f, ids, amount, t)) == Burst(key, f, ids, amount, t)
    ensures
      var next := After(st, Burst(key, f, ids, amount, t));
      && next.consumedRequestIds == st.consumedRequestIds + (set id | id in ids)
      && (|ids| > 0 ==> key in next.usage && next.usage[key].windowStart == WindowOf(t, f.windowSeconds))
    decreases |ids|
  {
    hide WindowOf, ReserveIn, Holds, ValidFrequency, Fits, Usable, Granted;
    if |ids| == 0 {
      GrantedNothing(st);
    } else {
      var burst, rest := Burst(key, f, ids, amount, t), Burst(key, f, ids[1..], amount, t);
      assert burst[0] in burst && burst[1..] == rest;
      FitsLess(f, held + 1, held + |ids|, amount);
      BurstStep(st, burst[0], f, held);
      var next := ReserveIn(st, burst[0]).0;
      BurstGranted(next, key, f, ids[1..], amount, t, held + 1);
      SetStep(ids);
      GrantedStep(st, burst);
      assert |ids| == 1 ==> After(next, rest) == next;
    }
  }

  lemma SetStep(ids: seq<Text>)
    requires |ids| > 0
    ensures (set id | id in ids) == {ids[0]} + (set id | id in ids[1..])
  {}

  lemma {:induction false} GrantedAppend(st: Store, first: seq<Input>, second: seq<Input>)
    requires (forall i | i in first :: Usable(i)) && (forall i | i in second :: Usable(i))
    ensures Granted(st, first + second) == Granted(st, first) + Granted(After(st, first), second)
    ensures After(st, first + second) == After(After(st, first), second)
    decreases |first|
  {
    hide ReserveIn, Usable;
    if |first| == 0 {
      assert first + second == second;
    } else {
      assert first[0] in first && (first + second)[1..] == first[1..] + second && (first + second)[0] in first + second;
      GrantedAppend(ReserveIn(st, first[0]).0, first[1..], second);
    }
  }

  lemma {:induction false} NumberAppend(first: seq<Input>, second: seq<Input>, key: Text, lo: int, hi: int)
    ensures Number(first + second, key, lo, hi) == Number(first, key, lo, hi) + Number(second, key, lo, hi)
    ensures Total(first + second, key, lo, hi) == Total(first, key, lo, hi) + Total(second, key, lo, hi)
  {
    if |first| == 0 {
      assert first + second == second;
    } else {
      assert (first + second)[1..] == first[1..] + second;
      NumberAppend(first[1..], second, key, lo, hi);
    }
  }

  lemma {:induction false} BurstCounts(key: Text, f: Frequency, ids: seq<Text>, amount: nat, t: int, lo: int, hi: int)
    requires ValidFrequency(f) && lo <= t < hi
    ensures Number(Burst(key, f, ids, amount, t), key, lo, hi) == |ids|
    ensures Total(Burst(key, f, ids, amount, t), key, lo, hi) == |ids| * amount
    decreases |ids|
  {
    if |ids| > 0 {
      assert Burst(key, f, ids, amount, t)[1..] == Burst(key, f, ids[1..], amount, t);
      BurstCounts(key, f, ids[1..], amount, t, lo, hi);
      assert |ids| * amount == amount + (|ids| - 1) * amount;
    }
  }

  lemma FreshPart(ids: seq<Text>, consumed: set<Text>, n: nat)
    requires n <= |ids| && Fresh(ids, consumed)
    ensures Fresh(ids[..n], consumed) && Fresh(ids[n..], consumed + (set id | id in ids[..n]))
  {
    forall k | 0 <= k < |ids[n..]| ensures ids[n..][k] == ids[n + k] && ids[n..][k] !in (set id | id in ids[..n]) {
      forall j | 0 <= j < n ensures ids[j] != ids[n + k] {}
    }
  }

  /** A burst in one window, and then, under further ids and another policy for the same key, a burst in a
      window that starts elsewhere: both are granted, and nothing is remembered of the first window. */
  lemma TwoBursts(st: Store, key: Text, f: Frequency, other: Frequency, ids: seq<Text>, n: nat, amount: nat, t0: int,
                  t1: int)
    requires ValidFrequency(f) && ValidFrequency(other) && 0 < n <= |ids| && Fresh(ids, st.consumedRequestIds)
    requires Holds(st, key, WindowOf(t0, f.windowSeconds), 0, amount)
    requires WindowOf(t0, f.windowSeconds) != WindowOf(t1, other.windowSeconds)
    requires Fits(f, n, amount) && Fits(other, |ids| - n, amount)
    ensures
      var (first, second) := (Burst(key, f, ids[..n], amount, t0), Burst(key, other, ids[n..], amount, t1));
      && Granted(st, first + second) == first + second
      && After(st, first + second).consumedRequestIds == st.consumedRequestIds + (set id | id in ids)
      && (|ids| > n ==> Holds(After(st, first + second), key, WindowOf(t0, f.windowSeconds), 0, amount))
  {
    hide WindowOf, ReserveIn, ValidFrequency, Fits, Fresh, Burst, Granted, After;
    var (first, second) := (Burst(key, f, ids[..n], amount, t0), Burst(key, other, ids[n..], amount, t1));
    FreshPart(ids, st.consumedRequestIds, n);
    BurstGranted(st, key, f, ids[..n], amount, t0, 0);
    BurstGranted(After(st, first), key, other, ids[n..], amount, t1, 0);
    GrantedAppend(st, first, second);
    assert ids == ids[..n] + ids[n..];
    assert (set id | id in ids) == (set id | id in ids[..n]) + (set id | id in ids[n..]);
  }

  /** A whole quota, one request under another policy of the same key, and the whole quota again. */
  function Twice(key: Text, f: Frequency, other: Frequency, ids: seq<Text>, amount: nat, t0: int, t1: int, t2: int):
    seq<Input>
    requires ValidFrequency(f) && ValidFrequency(other) && |ids| == 2 * f.maxOperations + 1
  {
    var n := f.maxOperations;
    Burst(key, f, ids[..n], amount, t0) + Burst(key, other, ids[n..n + 1], amount, t1)
    + Burst(key, f, ids[n + 1..], amount, t2)
  }

  /** Only the latest window of a key is remembered, by where it starts.  Whatever the policies that share
      the key, once a request under one of them has moved the key to a window that starts elsewhere, the
      whole quota of the other is there again, even at times that rise. */
  lemma SharedKeyDoublesQuota(key: Text, f: Frequency, other: Frequency, ids: seq<Text>, amount: nat, t0: int, t1: int,
                              t2: int)
    requires ValidFrequency(f) && ValidFrequency(other) && |ids| == 2 * f.maxOperations + 1 && Fresh(ids, {})
    requires Fits(f, f.maxOperations, amount) && Fits(other, 1, amount)
    requires WindowOf(t0, f.windowSeconds) == WindowOf(t2, f.windowSeconds) != WindowOf(t1, other.windowSeconds)
    ensures
      var inputs := Twice(key, f, other, ids, amount, t0, t1, t2);
      (forall i | i in inputs :: Usable(i)) && Granted(Empty(), inputs) == inputs
  {
    hide WindowOf, ReserveIn, Fits, Fresh, Granted, After, Usable;
    var n := f.maxOperations;
    FreshPart(ids, {}, n + 1);
    FreshPart(ids[..n + 1], {}, n);
    assert ids[..n + 1][..n] == ids[..n] && ids[..n + 1][n..] == ids[n..n + 1] && |ids[n + 1..]| == n;
    var (a, b, c) := (Burst(key, f, ids[..n], amount, t0), Burst(key, other, ids[n..n + 1], amount, t1),
      Burst(key, f, ids[n + 1..], amount, t2));
    TwoBursts(Empty(), key, f, other, ids[..n + 1], n, amount, t0, t1);
    BurstGranted(After(Empty(), a + b), key, f, ids[n + 1..], amount, t2, 0);
    GrantedAppend(Empty(), a + b, c);
  }

  /** In particular, whatever the policy, as soon as a window is entered again it admits twice its quota. */
  lemma ReentryDoublesQuota(key: Text, f: Frequency, ids: seq<Text>, amount: nat, t0: int, t1: int, t2: int)
    returns (inputs: seq<Input>)
    requires ValidFrequency(f) && |ids| == 2 * f.maxOperations + 1 && Fresh(ids, {})
    requires Fits(f, f.maxOperations, amount)
    requires WindowOf(t0, f.windowSeconds) == WindowOf(t2, f.windowSeconds) != WindowOf(t1, f.windowSeconds)
    ensures (forall i | i in inputs :: Usable(i)) && FixedPolicy(inputs, key, f)
    ensures forall i | i in inputs :: i.at in {t0, t1, t2} && i.amount == amount
    ensures
      var (w, n) := (WindowOf(t0, f.windowSeconds), f.maxOperations);
      && Number(Granted(Empty(), inputs), key, w, w + f.windowSeconds) == n + n
      && Total(Granted(Empty(), inputs), key, w, w + f.windowSeconds) == n * amount + n * amount
  {
    hide WindowOf, ReserveIn, Fits, Fresh, Granted, After, Number, Total, Usable;
    var (w, n) := (WindowOf(t0, f.windowSeconds), f.maxOperations);
    FitsLess(f, 1, n, amount);
    inputs := Twice(key, f, f, ids, amount, t0, t1, t2);
    SharedKeyDoublesQuota(key, f, f, ids, amount, t0, t1, t2);
    var (a, b, c) := (Burst(key, f, ids[..n], amount, t0), Burst(key, f, ids[n..n + 1], amount, t1),
      Burst(key, f, ids[n + 1..], amount, t2));
    Windowed(t0, f.windowSeconds);
    Windowed(t2, f.windowSeconds);
    NumberAppend(a + b, c, key, w, w + f.windowSeconds);
    NumberAppend(a, b, key, w, w + f.windowSeconds);
    BurstCounts(key, f, ids[..n], amount, t0, w, w + f.windowSeconds);
    BurstCounts(key, f, ids[n + 1..], amount, t2, w, w + f.windowSeconds);
    Elsewhere(t1, w, f.windowSeconds, t0);
    BurstTimes(key, f, ids[..n], amount, t0);
    BurstTimes(key, f, ids[n..n + 1], amount, t1);
    BurstTimes(key, f, ids[n + 1..], amount, t2);
    NothingInWindow(b, key, w, w + f.windowSeconds);
  }

  lemma BurstTimes(key: Text, f: Frequency, ids: seq<Text>, amount: nat, t: int)
    requires ValidFrequency(f)
    ensures forall i | i in Burst(key, f, ids, amount, t) :: i.at == t && i.amount == amount
  {}

  lemma Windowed(t: int, seconds: int)
    requires seconds >= 1
    ensures WindowOf(t, seconds) <= t < WindowOf(t, seconds) + seconds
  {
    WindowHolds(t, seconds);
  }

  lemma Elsewhere(t: int, w: int, seconds: int, t0: int)
    requires seconds >= 1 && w == WindowOf(t0, seconds) && WindowOf(t, seconds) != w
    ensures !(w <= t < w + seconds)
  {
    hide WindowOf;
    WindowHolds(t0, seconds);
    WindowExactly(t, w, seconds);
  }

  /** Twice the quota is also what an interval as long as a window may hold: all of one window just before
      its end, and all of the next just after. */
  lemma IntervalQuotaIsTight(key: Text, f: Frequency, ids: seq<Text>, amount: nat) returns (inputs: seq<Input>, a: int)
    requires ValidFrequency(f) && f.windowSeconds >= 2 && |ids| == 2 * f.maxOperations && Fresh(ids, {})
    requires Fits(f, f.maxOperations, amount)
    ensures (forall i | i in inputs :: Usable(i)) && FixedPolicy(inputs, key, f)
      && NeverReentered(inputs, key, f.windowSeconds)
    ensures Number(Granted(Empty(), inputs), key, a, a + f.windowSeconds) == 2 * f.maxOperations
    ensures Total(Granted(Empty(), inputs), key, a, a + f.windowSeconds) == 2 * (f.maxOperations * amount)
  {
    hide WindowOf, ReserveIn, Fits, Fresh, Granted, After, Number, Total, Usable, NeverReentered;
    var n := f.windowSeconds;
    AlignedZero(n);
    NextAligned(0, n);
    WindowExactly(n - 1, 0, n);
    WindowExactly(n, n, n);
    WindowExactly(n, 0, n);
    a := n - 1;
    var (x, y) := (Burst(key, f, ids[..f.maxOperations], amount, n - 1),
      Burst(key, f, ids[f.maxOperations..], amount, n));
    inputs := x + y;
    TwoBursts(Empty(), key, f, f, ids, f.maxOperations, amount, n - 1, n);
    NumberAppend(x, y, key, a, a + n);
    BurstCounts(key, f, ids[..f.maxOperations], amount, n - 1, a, a + n);
    BurstCounts(key, f, ids[f.maxOperations..], amount, n, a, a + n);
    RisingIsNeverReentered(inputs, key, n);
  }

  // ------------------------------------------------------------ frequency keys

  const COLON := 0x3a

  datatype Bucket = Bucket(signerId: Text, policyId: Text, target: Text, selector: Text)

  /** Addresses have 42 characters and selectors 10. */
  predicate WellFormed(b: Bucket) {
    |b.target| == 42 && |b.selector| == 10
  }

  function Owner(b: Bucket): Text {
    b.signerId + [COLON] + b.policyId
  }

  /** The key `authorize` counts under. */
  function FrequencyKey(b: Bucket): Text {
    Owner(b) + ([COLON] + b.target + [COLON] + b.selector)
  }

  /** Contract and selector are told apart, but signer and policy only through their joined text. */
  lemma FrequencyKeyExactly(a: Bucket, b: Bucket)
    requires WellFormed(a) && WellFormed(b)
    ensures FrequencyKey(a) == FrequencyKey(b) <==>
      Owner(a) == Owner(b) && a.target == b.target && a.selector == b.selector
  {
    var (x, y) := ([COLON] + a.target + [COLON] + a.selector, [COLON] + b.target + [COLON] + b.selector);
    if FrequencyKey(a) == FrequencyKey(b) {
      assert |x| == |y| == 54;
      assert |Owner(a)| == |FrequencyKey(a)| - 54 && |Owner(b)| == |FrequencyKey(b)| - 54;
      assert FrequencyKey(a)[..|Owner(a)|] == Owner(a) && FrequencyKey(b)[..|Owner(b)|] == Owner(b);
      assert FrequencyKey(a)[|Owner(a)|..] == x && FrequencyKey(b)[|Owner(b)|..] == y;
      assert x[1..43] == a.target && y[1..43] == b.target;
      assert x[44..] == a.selector && y[44..] == b.selector;
    }
  }

  function FirstColon(t: Text): nat {
    if |t| == 0 || t[0] == COLON then 0 else 1 + FirstColon(t[1..])
  }

  lemma {:induction false} FirstColonOfJoin(a: Text, rest: Text)
    requires COLON !in a
    ensures FirstColon(a + [COLON] + rest) == |a|
  {
    if |a| > 0 {
      FirstColonOfJoin(a[1..], rest);
      assert (a + [COLON] + rest)[1..] == a[1..] + [COLON] + rest;
    }
  }

  /** Buckets are separate as soon as signer ids hold no colon; otherwise two may share one quota. */
  lemma BucketsSeparate(a: Bucket, b: Bucket)
    requires WellFormed(a) && WellFormed(b) && COLON !in a.signerId && COLON !in b.signerId
    ensures FrequencyKey(a) == FrequencyKey(b) <==> a == b
  {
    FrequencyKeyExactly(a, b);
    if Owner(a) == Owner(b) {
      FirstColonOfJoin(a.signerId, a.policyId);
      FirstColonOfJoin(b.signerId, b.policyId);
      assert Owner(a)[..|a.signerId|] == a.signerId && Owner(b)[..|b.signerId|] == b.signerId;
      assert Owner(a)[|a.signerId| + 1..] == a.policyId && Owner(b)[|b.signerId| + 1..] == b.policyId;
    }
  }

  lemma BucketsMayMeet(target: Text, selector: Text) returns (a: Bucket, b: Bucket)
    requires |target| == 42 && |selector| == 10
    ensures WellFormed(a) && WellFormed(b) && a.signerId != b.signerId && FrequencyKey(a) == FrequencyKey(b)
  {
    a := Bucket([0x61], [0x62, COLON, 0x63], target, selector);
    b := Bucket([0x61, COLON, 0x62], [0x63], target, selector);
    assert Owner(a) == Owner(b);
  }
}
