/** The development key store: a key only ever moves from standby to active to rotated to disabled. */
module KeyLifecycle {
  import opened Strings
  import opened Wrappers

  datatype KeyStatus = Standby | Active | Rotated | Disabled

  datatype Key = Key(version: Text, algorithm: Text, status: KeyStatus)

  type Keys = map<Text, Key>

  datatype Rejection = KeyNotFound | KeyNotActive | KeyDisabled | AlgorithmMismatch

  function Rank(s: KeyStatus): nat {
    match s case Standby => 0 case Active => 1 case Rotated => 2 case Disabled => 3
  }

  function WithStatus(keys: Keys, id: Text, status: KeyStatus): Keys
    requires id in keys
  {
    keys[id := keys[id].(status := status)]
  }

  function RotateIn(keys: Keys, current: Text, next: Text): (Keys, Result<(), Rejection>) {
    if current !in keys || next !in keys then (keys, Err(KeyNotFound))
    else if keys[current].status == Disabled || keys[next].status == Disabled then (keys, Err(KeyDisabled))
    else if keys[current].status != Active || keys[next].status != Standby then (keys, Err(KeyNotActive))
    else if keys[current].algorithm != keys[next].algorithm then (keys, Err(AlgorithmMismatch))
    else (WithStatus(WithStatus(keys, current, Rotated), next, Active), Ok(()))
  }

  function DisableIn(keys: Keys, id: Text): (Keys, Result<(), Rejection>) {
    if id !in keys then (keys, Err(KeyNotFound))
    else if keys[id].status == Disabled then (keys, Err(KeyDisabled))
    else (WithStatus(keys, id, Disabled), Ok(()))
  }

  class UnsafeLocalDevelopmentKmsAdapter {
    var keys: Keys

    constructor (initial: Keys)
      requires forall id | id in initial :: initial[id].status != Rotated
      ensures keys == initial
    {
      keys := initial;
    }

    method Rotate(current: Text, next: Text) returns (r: Result<(), Rejection>)
      modifies this
      ensures (keys, r) == RotateIn(old(keys), current, next)
    {
      if current !in keys || next !in keys {
        return Err(KeyNotFound);
      }
      if keys[current].status == Disabled || keys[next].status == Disabled {
        return Err(KeyDisabled);
      }
      if keys[current].status != Active || keys[next].status != Standby {
        return Err(KeyNotActive);
      }
      if keys[current].algorithm != keys[next].algorithm {
        return Err(AlgorithmMismatch);
      }
      keys := keys[current := keys[current].(status := Rotated)];
      keys := keys[next := keys[next].(status := Active)];
      r := Ok(());
    }

    method Disable(id: Text) returns (r: Result<(), Rejection>)
      modifies this
      ensures (keys, r) == DisableIn(old(keys), id)
    {
      if id !in keys {
        return Err(KeyNotFound);
      }
      if keys[id].status == Disabled {
        return Err(KeyDisabled);
      }
      keys := keys[id := keys[id].(status := Disabled)];
      r := Ok(());
    }
  }

  /** A key becomes the current one exactly from standby, in place of an active one of the same algorithm, which is
      then rotated; every other key stays as it is. */
  lemma RotatesExactly(keys: Keys, current: Text, next: Text)
    ensures
      var (after, r) := RotateIn(keys, current, next);
      && (r.Ok? <==>
            && current in keys && next in keys && keys[current].status == Active && keys[next].status == Standby
            && keys[current].algorithm == keys[next].algorithm)
      && (r.Err? ==> after == keys)
      && (r.Ok? ==>
            && after.Keys == keys.Keys
            && after[current] == Key(keys[current].version, keys[current].algorithm, Rotated)
            && after[next] == Key(keys[next].version, keys[next].algorithm, Active)
            && forall id | id in keys && id != current && id != next :: after[id] == keys[id])
  {}

  /** And why not: an unknown key before a disabled one, and that before one in another state. */
  lemma RotationRefused(keys: Keys, current: Text, next: Text)
    ensures
      var r := RotateIn(keys, current, next).1;
      && (r == Err(KeyNotFound) <==> current !in keys || next !in keys)
      && (r == Err(KeyDisabled) <==>
            && current in keys && next in keys
            && (keys[current].status == Disabled || keys[next].status == Disabled))
      && (r == Err(AlgorithmMismatch) <==>
            && current in keys && next in keys && keys[current].status == Active && keys[next].status == Standby
            && keys[current].algorithm != keys[next].algorithm)
  {}

  lemma DisablesExactly(keys: Keys, id: Text)
    ensures
      var (after, r) := DisableIn(keys, id);
      && (r.Ok? <==> id in keys && keys[id].status != Disabled)
      && (r == Err(KeyNotFound) <==> id !in keys)
      && after == if r.Ok? then keys[id := Key(keys[id].version, keys[id].algorithm, Disabled)] else keys
  {}

  // ------------------------------------------------------------------- runs

  datatype Operation = Rotate(current: Text, next: Text) | Disable(id: Text)

  function Apply(keys: Keys, op: Operation): (Keys, Result<(), Rejection>) {
    match op
    case Rotate(current, next) => RotateIn(keys, current, next)
    case Disable(id) => DisableIn(keys, id)
  }

  function Run(keys: Keys, ops: seq<Operation>): Keys
    decreases |ops|
  {
    if |ops| == 0 then keys else Run(Apply(keys, ops[0]).0, ops[1..])
  }

  /** Completed rotations count twice: two keys move. */
  function Work(keys: Keys, ops: seq<Operation>): nat
    decreases |ops|
  {
    if |ops| == 0 then 0
    else
      var (next, r) := Apply(keys, ops[0]);
      (if r.Err? then 0 else if ops[0].Rotate? then 2 else 1) + Work(next, ops[1..])
  }

  function Completed(keys: Keys, ops: seq<Operation>): nat
    decreases |ops|
  {
    if |ops| == 0 then 0
    else
      var (next, r) := Apply(keys, ops[0]);
      (if r.Err? then 0 else 1) + Completed(next, ops[1..])
  }

  // -------------------------------------------------------------- the order

  function AtLeast(keys: Keys, rank: nat): (r: set<Text>)
    ensures r <= keys.Keys
  {
    set id | id in keys && Rank(keys[id].status) >= rank
  }

  /** The sum of the ranks of all keys. */
  function TotalRank(keys: Keys): nat {
    |AtLeast(keys, 1)| + |AtLeast(keys, 2)| + |AtLeast(keys, 3)|
  }

  lemma SubsetSize(a: set<Text>, b: set<Text>)
    requires a <= b
    ensures |a| <= |b|
  {
    assert b == a + (b - a);
  }

  lemma TotalRankBound(keys: Keys)
    ensures TotalRank(keys) <= 3 * |keys|
  {
    assert |keys.Keys| == |keys|;
    SubsetSize(AtLeast(keys, 1), keys.Keys);
    SubsetSize(AtLeast(keys, 2), keys.Keys);
    SubsetSize(AtLeast(keys, 3), keys.Keys);
  }

  lemma LevelStep(keys: Keys, id: Text, status: KeyStatus, rank: nat)
    requires id in keys && Rank(status) >= Rank(keys[id].status)
    ensures |AtLeast(WithStatus(keys, id, status), rank)|
         == |AtLeast(keys, rank)| + if Rank(keys[id].status) < rank <= Rank(status) then 1 else 0
  {
    var before, after := AtLeast(keys, rank), AtLeast(WithStatus(keys, id, status), rank);
    if Rank(keys[id].status) < rank <= Rank(status) {
      assert after == before + {id};
    } else {
      assert after == before;
    }
  }

  /** Raising one key raises the total by exactly as much. */
  lemma RankStep(keys: Keys, id: Text, status: KeyStatus)
    requires id in keys && Rank(status) >= Rank(keys[id].status)
    ensures TotalRank(WithStatus(keys, id, status)) == TotalRank(keys) + Rank(status) - Rank(keys[id].status)
    ensures |WithStatus(keys, id, status)| == |keys|
  {
    hide AtLeast;
    LevelStep(keys, id, status, 1);
    LevelStep(keys, id, status, 2);
    LevelStep(keys, id, status, 3);
    assert WithStatus(keys, id, status).Keys == keys.Keys;
    assert |keys.Keys| == |keys| && |WithStatus(keys, id, status).Keys| == |WithStatus(keys, id, status)|;
  }

  lemma ApplyRank(keys: Keys, op: Operation)
    ensures
      var (next, r) := Apply(keys, op);
      && |next| == |keys|
      && (r.Err? ==> next == keys)
      && (r.Ok? ==> TotalRank(next) >= TotalRank(keys) + if op.Rotate? then 2 else 1)
  {
    hide TotalRank;
    var (next, r) := Apply(keys, op);
    if r.Ok? {
      match op
      case Rotate(current, standby) =>
        RankStep(keys, current, Rotated);
        RankStep(WithStatus(keys, current, Rotated), standby, Active);
      case Disable(id) => RankStep(keys, id, Disabled);
    }
  }

  /** In any run 2·rotations + disables fits in what the ranks still have to rise, so at most
      3·|keys| operations ever complete. */
  lemma {:induction false} WorkIsBounded(keys: Keys, ops: seq<Operation>)
    ensures Work(keys, ops) + TotalRank(keys) <= 3 * |keys|
    ensures Completed(keys, ops) <= Work(keys, ops) <= 3 * |keys|
    decreases |ops|
  {
    hide TotalRank, Apply;
    if |ops| == 0 {
      TotalRankBound(keys);
    } else {
      ApplyRank(keys, ops[0]);
      WorkIsBounded(Apply(keys, ops[0]).0, ops[1..]);
    }
  }

  /** No key is lost, none moves back, and a key that was rotated or disabled is never active again. */
  lemma {:induction false} RanksOnlyRise(keys: Keys, ops: seq<Operation>, id: Text)
    requires id in keys
    ensures id in Run(keys, ops) && Rank(keys[id].status) <= Rank(Run(keys, ops)[id].status)
    ensures Rank(keys[id].status) >= 2 ==> Run(keys, ops)[id].status != Active
    decreases |ops|
  {
    if |ops| > 0 {
      RanksOnlyRise(Apply(keys, ops[0]).0, ops[1..], id);
    }
  }

  // ------------------------------------------------------------- active keys

  function ActiveKeys(keys: Keys): set<Text> {
    set id | id in keys && keys[id].status == Active
  }

  /** A rotation passes activity on: one key stops, another starts, the number stays; disabling stops at most one. */
  lemma ActiveCount(keys: Keys, op: Operation)
    ensures
      var (next, r) := Apply(keys, op);
      && (r.Ok? && op.Rotate? ==>
            && ActiveKeys(next) == ActiveKeys(keys) - {op.current} + {op.next}
            && |ActiveKeys(next)| == |ActiveKeys(keys)|)
      && (r.Ok? && op.Disable? ==> ActiveKeys(next) == ActiveKeys(keys) - {op.id})
      && (r.Err? ==> ActiveKeys(next) == ActiveKeys(keys))
  {
    hide ActiveKeys;
    if Apply(keys, op).1.Ok? {
      match op
      case Rotate(current, next) => ActivityPasses(keys, current, next);
      case Disable(id) => ActivityStops(keys, id);
    }
  }

  lemma ActivityPasses(keys: Keys, current: Text, next: Text)
    requires current in keys && next in keys && keys[current].status == Active && keys[next].status == Standby
    ensures
      var after := WithStatus(WithStatus(keys, current, Rotated), next, Active);
      ActiveKeys(after) == ActiveKeys(keys) - {current} + {next} && |ActiveKeys(after)| == |ActiveKeys(keys)|
  {
    var before, after := ActiveKeys(keys), ActiveKeys(WithStatus(WithStatus(keys, current, Rotated), next, Active));
    assert after == before - {current} + {next};
    assert current in before && next !in before;
  }

  lemma ActivityStops(keys: Keys, id: Text)
    requires id in keys
    ensures ActiveKeys(WithStatus(keys, id, Disabled)) == ActiveKeys(keys) - {id}
  {}

  predicate OnlyRotations(ops: seq<Operation>) {
    forall op | op in ops :: op.Rotate?
  }

  /** Without a disable, every run keeps the number of active keys. */
  lemma {:induction false} RotationsKeepActiveCount(keys: Keys, ops: seq<Operation>)
    requires OnlyRotations(ops)
    ensures |ActiveKeys(Run(keys, ops))| == |ActiveKeys(keys)|
    decreases |ops|
  {
    hide ActiveKeys, Apply;
    if |ops| > 0 {
      assert ops[0] in ops;
      ActiveCount(keys, ops[0]);
      RotationsKeepActiveCount(Apply(keys, ops[0]).0, ops[1..]);
    }
  }
}
