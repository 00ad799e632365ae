/** Key rotation in an accepted snapshot: the chains of an issuer's keys and how they tile time. */
module KeyRotation {
  import opened Strings
  import opened Wrappers
  import opened Json
  import opened Records
  import opened TrustSnapshot
  import opened TrustEvaluation

  // ------------------------------------------------- what the joined keys say

  lemma TextNoNul(t: Text, max: nat)
    requires IsText(t, max)
    ensures NoNul(t)
  {
    NoControlNoNul(t);
  }

  lemma TagsNoNul()
    ensures NoNul(Ascii("previous")) && NoNul(Ascii("next"))
  {
    var p, n := Ascii("previous"), Ascii("next");
    assert p == [112, 114, 101, 118, 105, 111, 117, 115] && n == [110, 101, 120, 116];
  }

  lemma PredecessorKeyExact(a: Rotation, b: Rotation)
    requires ValidRotation(a) && ValidRotation(b)
    ensures PredecessorKey(a) == PredecessorKey(b) <==> a.issuerId == b.issuerId && a.previousKeyId == b.previousKeyId
  {
    TagsNoNul();
    TextNoNul(a.issuerId, 512);
    TextNoNul(b.issuerId, 512);
    var tag := Ascii("previous");
    Join2Injective(a.issuerId, Join2(tag, a.previousKeyId), b.issuerId, Join2(tag, b.previousKeyId));
    Join2Injective(tag, a.previousKeyId, tag, b.previousKeyId);
  }

  lemma SuccessorKeyExact(a: Rotation, b: Rotation)
    requires ValidRotation(a) && ValidRotation(b)
    ensures SuccessorKey(a) == SuccessorKey(b) <==> a.issuerId == b.issuerId && a.newKeyId == b.newKeyId
  {
    TagsNoNul();
    TextNoNul(a.issuerId, 512);
    TextNoNul(b.issuerId, 512);
    var tag := Ascii("next");
    Join2Injective(a.issuerId, Join2(tag, a.newKeyId), b.issuerId, Join2(tag, b.newKeyId));
    Join2Injective(tag, a.newKeyId, tag, b.newKeyId);
  }

  lemma StatusKeyExact(a: StatusEntry, b: StatusEntry)
    requires ValidStatus(a) && ValidStatus(b)
    ensures StatusKey(a) == StatusKey(b) <==> a.issuerId == b.issuerId && a.statusId == b.statusId
  {
    TextNoNul(a.issuerId, 512);
    TextNoNul(b.issuerId, 512);
    Join2Injective(a.issuerId, a.statusId, b.issuerId, b.statusId);
  }

  lemma RotationKeyPins(a: Rotation, b: Rotation)
    requires ValidRotation(a) && ValidRotation(b) && RotationKey(a) == RotationKey(b)
    ensures a.issuerId == b.issuerId && a.previousKeyId == b.previousKeyId && a.newKeyId == b.newKeyId
  {
    TextNoNul(a.issuerId, 512);
    TextNoNul(b.issuerId, 512);
    TextNoNul(a.previousKeyId, 512);
    TextNoNul(b.previousKeyId, 512);
    TextNoNul(a.newKeyId, 512);
    TextNoNul(b.newKeyId, 512);
    var (x, y) := (Join2(a.newKeyId, PrintNumber(a.rotatedAt)), Join2(b.newKeyId, PrintNumber(b.rotatedAt)));
    Join2Injective(a.issuerId, Join2(a.previousKeyId, x), b.issuerId, Join2(b.previousKeyId, y));
    Join2Injective(a.previousKeyId, x, b.previousKeyId, y);
    Join2Injective(a.newKeyId, PrintNumber(a.rotatedAt), b.newKeyId, PrintNumber(b.rotatedAt));
  }

  /** Two rotations of one issuer. */
  predicate SamePredecessor(a: Rotation, b: Rotation) {
    a.issuerId == b.issuerId && a.previousKeyId == b.previousKeyId
  }

  predicate SameSuccessor(a: Rotation, b: Rotation) {
    a.issuerId == b.issuerId && a.newKeyId == b.newKeyId
  }

  predicate SameEntry(a: StatusEntry, b: StatusEntry) {
    a.issuerId == b.issuerId && a.statusId == b.statusId
  }

  /** What the uniqueness checks on joined texts mean: no issuer, predecessor, successor or status
      entry occurs twice.  The check on whole rotations adds nothing. */
  lemma KeysUniqueExactly(s: Snapshot)
    requires ValidParts(s)
    ensures KeysUnique(s) <==>
      && (forall i, j | 0 <= i < j < |s.issuers| :: s.issuers[i].issuerId != s.issuers[j].issuerId)
      && (forall i, j | 0 <= i < j < |s.rotations| :: !SamePredecessor(s.rotations[i], s.rotations[j]))
      && (forall i, j | 0 <= i < j < |s.rotations| :: !SameSuccessor(s.rotations[i], s.rotations[j]))
      && (forall i, j | 0 <= i < j < |s.statuses| :: !SameEntry(s.statuses[i], s.statuses[j]))
  {
    hide RotationKey, PredecessorKey, SuccessorKey, StatusKey, ValidRotation, ValidStatus, ValidIssuer;
    var rotations, statuses := s.rotations, s.statuses;
    forall i, j | 0 <= i < j < |rotations|
      ensures PredecessorKey(rotations[i]) == PredecessorKey(rotations[j])
        <==> SamePredecessor(rotations[i], rotations[j])
      ensures SuccessorKey(rotations[i]) == SuccessorKey(rotations[j]) <==> SameSuccessor(rotations[i], rotations[j])
      ensures RotationKey(rotations[i]) == RotationKey(rotations[j]) ==> SamePredecessor(rotations[i], rotations[j])
    {
      PredecessorKeyExact(rotations[i], rotations[j]);
      SuccessorKeyExact(rotations[i], rotations[j]);
      if RotationKey(rotations[i]) == RotationKey(rotations[j]) {
        RotationKeyPins(rotations[i], rotations[j]);
      }
    }
    forall i, j | 0 <= i < j < |statuses|
      ensures StatusKey(statuses[i]) == StatusKey(statuses[j]) <==> SameEntry(statuses[i], statuses[j])
    {
      StatusKeyExact(statuses[i], statuses[j]);
    }
    DistinctMap(s.issuers, (i: Issuer) => i.issuerId);
    DistinctMap(rotations, RotationKey);
    DistinctMap(rotations, PredecessorKey);
    DistinctMap(rotations, SuccessorKey);
    DistinctMap(statuses, StatusKey);
  }

  lemma DistinctMap<A>(xs: seq<A>, f: A -> Text)
    ensures Distinct(Map(xs, f)) <==> forall i, j | 0 <= i < j < |xs| :: f(xs[i]) != f(xs[j])
  {
    var ys := Map(xs, f);
    if Distinct(ys) {
      forall i, j | 0 <= i < j < |xs| ensures f(xs[i]) != f(xs[j]) {
        assert ys[i] != ys[j];
      }
    }
  }

  // ------------------------------------------------------------------ chains

  /** Some rotation of the issuer replaces key a by key b. */
  ghost predicate Rotates(s: Snapshot, issuerId: Text, a: Text, b: Text) {
    exists r | r in s.rotations :: Replaces(r, issuerId, a, b)
  }

  predicate Replaces(r: Rotation, issuerId: Text, a: Text, b: Text) {
    r.issuerId == issuerId && r.previousKeyId == a && r.newKeyId == b
  }

  lemma RotationBetween(s: Snapshot, issuerId: Text, a: Text, b: Text) returns (r: Rotation)
    requires Rotates(s, issuerId, a, b)
    ensures r in s.rotations && Replaces(r, issuerId, a, b)
  {
    r :| r in s.rotations && Replaces(r, issuerId, a, b);
  }

  ghost predicate Link(s: Snapshot, issuerId: Text, keys: seq<Text>, k: int) {
    0 < k < |keys| ==> Rotates(s, issuerId, keys[k - 1], keys[k])
  }

  /** Keys of one issuer, each replaced by the next. */
  ghost predicate Chain(s: Snapshot, issuerId: Text, keys: seq<Text>) {
    && |keys| > 0
    && forall k | 0 < k < |keys| :: Link(s, issuerId, keys, k)
  }

  /** A chain that cannot be extended at either end. */
  ghost predicate Maximal(s: Snapshot, issuerId: Text, keys: seq<Text>) {
    && Chain(s, issuerId, keys)
    && Original(s, issuerId, keys[0])
    && Current(s, issuerId, keys[|keys| - 1])
  }

  /** The key replaced no other. */
  ghost predicate Original(s: Snapshot, issuerId: Text, keyId: Text) {
    forall id :: !Rotates(s, issuerId, id, keyId)
  }

  /** No key has replaced it. */
  ghost predicate Current(s: Snapshot, issuerId: Text, keyId: Text) {
    forall id :: !Rotates(s, issuerId, keyId, id)
  }

  function KeyOf(s: Snapshot, issuerId: Text, keyId: Text): Option<Key> {
    var issuer :- FindIssuer(s.issuers, issuerId);
    FindKey(issuer.keys, keyId)
  }

  /** A rotation retires the old key at the very moment the new one becomes authorised. */
  lemma RotationMeets(s: Snapshot, issuerId: Text, a: Text, b: Text)
    requires Valid(s) && Rotates(s, issuerId, a, b)
    ensures KeyOf(s, issuerId, a).Some? && KeyOf(s, issuerId, b).Some?
    ensures KeyOf(s, issuerId, a).value.status == Retired
    ensures KeyOf(s, issuerId, a).value.until == Some(KeyOf(s, issuerId, b).value.from)
    ensures KeyOf(s, issuerId, a).value.from < KeyOf(s, issuerId, b).value.from
    ensures KeyOf(s, issuerId, b).value.from <= s.issuedAt
  {
    var r := RotationBetween(s, issuerId, a, b);
    assert RotationMatches(s, r);
    var issuer := FindIssuer(s.issuers, issuerId).value;
    assert ValidIssuer(issuer);
    assert ValidKey(FindKey(issuer.keys, a).value);
  }

  lemma OnePredecessor(s: Snapshot, issuerId: Text, a: Text, b: Text, c: Text)
    requires Valid(s) && Rotates(s, issuerId, a, c) && Rotates(s, issuerId, b, c)
    ensures a == b
  {
    hide ValidHeader, RelationsHold, KeysUnique, ValidIssuer, ValidRotation, ValidStatus;
    var x := RotationBetween(s, issuerId, a, c);
    var y := RotationBetween(s, issuerId, b, c);
    KeysUniqueExactly(s);
    var i :| 0 <= i < |s.rotations| && s.rotations[i] == x;
    var j :| 0 <= j < |s.rotations| && s.rotations[j] == y;
    assert SameSuccessor(s.rotations[i], s.rotations[j]) && SameSuccessor(s.rotations[j], s.rotations[i]);
  }

  lemma OneSuccessor(s: Snapshot, issuerId: Text, a: Text, b: Text, c: Text)
    requires Valid(s) && Rotates(s, issuerId, a, b) && Rotates(s, issuerId, a, c)
    ensures b == c
  {
    hide ValidHeader, RelationsHold, KeysUnique, ValidIssuer, ValidRotation, ValidStatus;
    var x := RotationBetween(s, issuerId, a, b);
    var y := RotationBetween(s, issuerId, a, c);
    KeysUniqueExactly(s);
    var i :| 0 <= i < |s.rotations| && s.rotations[i] == x;
    var j :| 0 <= j < |s.rotations| && s.rotations[j] == y;
    assert SamePredecessor(s.rotations[i], s.rotations[j]) && SamePredecessor(s.rotations[j], s.rotations[i]);
  }

  lemma LinkAt(s: Snapshot, issuerId: Text, keys: seq<Text>, k: int)
    requires Chain(s, issuerId, keys)
    ensures 0 < k < |keys| ==> Rotates(s, issuerId, keys[k - 1], keys[k])
  {
    assert Link(s, issuerId, keys, k);
  }

  /** When the key takes effect; 0 for a key the snapshot does not list. */
  function From(s: Snapshot, issuerId: Text, keyId: Text): int {
    match KeyOf(s, issuerId, keyId) case Some(key) => key.from case None => 0
  }

  /** Along a chain keys take effect strictly later and later, and each ends when its successor starts. */
  lemma {:induction false} ChainRises(s: Snapshot, issuerId: Text, keys: seq<Text>, j: nat, k: nat)
    requires Valid(s) && Chain(s, issuerId, keys) && j < k < |keys|
    ensures From(s, issuerId, keys[j]) < From(s, issuerId, keys[k])
    decreases k
  {
    hide Valid, KeyOf;
    LinkAt(s, issuerId, keys, k);
    RotationMeets(s, issuerId, keys[k - 1], keys[k]);
    if j < k - 1 {
      ChainRises(s, issuerId, keys, j, k - 1);
    }
  }

  /** No key comes back: a chain has no cycle. */
  lemma ChainHasNoCycle(s: Snapshot, issuerId: Text, keys: seq<Text>)
    requires Valid(s) && Chain(s, issuerId, keys)
    ensures Distinct(keys)
  {
    hide Valid, From, Chain;
    forall j, k | 0 <= j < k < |keys| ensures keys[j] != keys[k] {
      ChainRises(s, issuerId, keys, j, k);
    }
  }

  /** The rotations along a chain have strictly increasing times. */
  lemma RotationTimesRise(s: Snapshot, issuerId: Text, keys: seq<Text>, j: nat, k: nat, x: Rotation, y: Rotation)
    requires Valid(s) && Chain(s, issuerId, keys) && j < k < |keys| - 1
    requires x in s.rotations && Replaces(x, issuerId, keys[j], keys[j + 1])
    requires y in s.rotations && Replaces(y, issuerId, keys[k], keys[k + 1])
    ensures x.rotatedAt < y.rotatedAt
  {
    hide Valid, From, Chain;
    RotationStartsKey(s, x);
    RotationStartsKey(s, y);
    ChainRises(s, issuerId, keys, j + 1, k + 1);
  }

  lemma RotationStartsKey(s: Snapshot, r: Rotation)
    requires Valid(s) && r in s.rotations
    ensures r.rotatedAt == From(s, r.issuerId, r.newKeyId)
  {
    assert RotationMatches(s, r);
  }

  /** Two maximal chains with a key in common have the same keys before it. */
  lemma {:induction false} SamePast(s: Snapshot, issuerId: Text, p: seq<Text>, a: nat, q: seq<Text>, b: nat)
    requires Valid(s) && Maximal(s, issuerId, p) && Maximal(s, issuerId, q)
    requires a < |p| && b < |q| && p[a] == q[b]
    ensures a == b && p[..a + 1] == q[..b + 1]
    decreases a
  {
    hide Valid, Rotates;
    LinkAt(s, issuerId, p, a);
    LinkAt(s, issuerId, q, b);
    if a > 0 && b > 0 {
      OnePredecessor(s, issuerId, p[a - 1], q[b - 1], p[a]);
      SamePast(s, issuerId, p, a - 1, q, b - 1);
      assert p[..a + 1] == p[..a] + [p[a]] && q[..b + 1] == q[..b] + [q[b]];
    }
  }

  lemma {:induction false} SameFuture(s: Snapshot, issuerId: Text, p: seq<Text>, q: seq<Text>, a: nat)
    requires Valid(s) && Maximal(s, issuerId, p) && Maximal(s, issuerId, q)
    requires a < |p| && a < |q| && p[a] == q[a]
    ensures |p| == |q| && p[a..] == q[a..]
    decreases |p| - a
  {
    hide Valid, Rotates;
    LinkAt(s, issuerId, p, a + 1);
    LinkAt(s, issuerId, q, a + 1);
    if a + 1 < |p| && a + 1 < |q| {
      OneSuccessor(s, issuerId, p[a], p[a + 1], q[a + 1]);
      SameFuture(s, issuerId, p, q, a + 1);
      assert p[a..] == [p[a]] + p[a + 1..] && q[a..] == [q[a]] + q[a + 1..];
    }
  }

  /** An issuer's maximal chains are disjoint: two that share a key are the same chain. */
  lemma ChainsAreDisjoint(s: Snapshot, issuerId: Text, p: seq<Text>, q: seq<Text>)
    requires Valid(s) && Maximal(s, issuerId, p) && Maximal(s, issuerId, q)
    ensures p == q || forall id :: !(id in p && id in q)
  {
    hide Valid, Maximal;
    if id :| id in p && id in q {
      var a :| 0 <= a < |p| && p[a] == id;
      var b :| 0 <= b < |q| && q[b] == id;
      SamePast(s, issuerId, p, a, q, b);
      SameFuture(s, issuerId, p, q, a);
      assert p == p[..a] + p[a..] && q == q[..a] + q[a..];
      assert p[..a] == p[..a + 1][..a] && q[..a] == q[..a + 1][..a];
    }
  }

  function TimeLeft(s: Snapshot, issuerId: Text, keyId: Text): nat {
    var from := From(s, issuerId, keyId);
    if from <= s.issuedAt then s.issuedAt - from else 0
  }

  lemma {:induction false} ExtendForward(s: Snapshot, issuerId: Text, keys: seq<Text>) returns (p: seq<Text>)
    requires Valid(s) && Chain(s, issuerId, keys)
    ensures Chain(s, issuerId, p) && keys <= p && Current(s, issuerId, p[|p| - 1])
    decreases TimeLeft(s, issuerId, keys[|keys| - 1])
  {
    hide Valid, KeyOf, Rotates;
    var last := keys[|keys| - 1];
    if id :| Rotates(s, issuerId, last, id) {
      RotationMeets(s, issuerId, last, id);
      var longer := keys + [id];
      forall k | 0 < k < |longer| ensures Link(s, issuerId, longer, k) {
        assert k < |keys| ==> Link(s, issuerId, keys, k);
      }
      p := ExtendForward(s, issuerId, longer);
    } else {
      p := keys;
    }
  }

  lemma {:induction false} ExtendBackward(s: Snapshot, issuerId: Text, keys: seq<Text>) returns (p: seq<Text>)
    requires Valid(s) && Chain(s, issuerId, keys)
    ensures Chain(s, issuerId, p) && Original(s, issuerId, p[0])
    ensures |keys| <= |p| && p[|p| - |keys|..] == keys
    decreases From(s, issuerId, keys[0])
  {
    hide Valid, KeyOf, Rotates;
    FromIsNat(s, issuerId, keys[0]);
    if id :| Rotates(s, issuerId, id, keys[0]) {
      RotationMeets(s, issuerId, id, keys[0]);
      FromIsNat(s, issuerId, id);
      var longer := [id] + keys;
      forall k | 0 < k < |longer| ensures Link(s, issuerId, longer, k) {
        assert k > 1 ==> Link(s, issuerId, keys, k - 1);
      }
      p := ExtendBackward(s, issuerId, longer);
      assert p[|p| - |keys|..] == p[|p| - |longer|..][1..];
    } else {
      p := keys;
    }
  }

  lemma FromIsNat(s: Snapshot, issuerId: Text, keyId: Text)
    requires Valid(s)
    ensures From(s, issuerId, keyId) >= 0
  {
    hide RelationsHold, KeysUnique, ValidHeader, IsText;
    if KeyOf(s, issuerId, keyId).Some? {
      var issuer := FindIssuer(s.issuers, issuerId).value;
      assert ValidIssuer(issuer);
      assert ValidKey(FindKey(issuer.keys, keyId).value);
    }
  }

  /** Every key lies in a maximal chain; by ChainsAreDisjoint, in exactly one. */
  lemma EveryKeyHasItsChain(s: Snapshot, issuerId: Text, keyId: Text) returns (p: seq<Text>)
    requires Valid(s)
    ensures Maximal(s, issuerId, p) && keyId in p
    ensures forall q | Maximal(s, issuerId, q) && keyId in q :: q == p
  {
    hide Valid, Rotates, Original, Current;
    var forward := ExtendForward(s, issuerId, [keyId]);
    assert forward[0] == keyId;
    p := ExtendBackward(s, issuerId, forward);
    assert p[|p| - |forward|] == p[|p| - |forward|..][0] == keyId;
    assert p[|p| - 1] == p[|p| - |forward|..][|forward| - 1];
    forall q | Maximal(s, issuerId, q) && keyId in q ensures q == p {
      ChainsAreDisjoint(s, issuerId, p, q);
    }
  }

  // ------------------------------------------------------------------ tiling

  /** The request's credential, issued at time t under this key. */
  function SignedBy(q: Request, keyId: Text, t: int): Request {
    q.(keyId := keyId, issuedAt := t)
  }

  predicate Trusted(s: Snapshot, q: Request, now: int, keyId: Text, t: int) {
    EvaluateTrust(s, SignedBy(q, keyId, t), now) == Decision(Verified, TrustVerified, Evidence(s))
  }

  /** The request is for this snapshot, which is fresh, and for an active issuer and schema. */
  predicate Open(s: Snapshot, q: Request, now: int) {
    && InScope(s, q) && Fresh(s, now)
    && var issuer := FindIssuer(s.issuers, q.issuerId);
    && issuer.Some? && issuer.value.status == Active
    && var schema := FindSchema(issuer.value.schemas, q.schemaId);
    && schema.Some? && schema.value.status == Active
  }

  lemma TrustedExactly(s: Snapshot, q: Request, now: int, keyId: Text, t: int)
    ensures Trusted(s, q, now, keyId, t) <==>
      && Open(s, q, now) && IsSafeInteger(t)
      && KeyOf(s, q.issuerId, keyId).Some? && KeyOf(s, q.issuerId, keyId).value.status != Withdrawn
      && Within(KeyOf(s, q.issuerId, keyId).value, t)
  {
    hide FindIssuer, FindSchema, FindKey;
  }

  /** Whatever the time of issuance, at most one key of a chain is trusted. */
  lemma AtMostOneTrusted(s: Snapshot, q: Request, now: int, keys: seq<Text>, t: int, j: nat, k: nat)
    requires Valid(s) && Chain(s, q.issuerId, keys) && j < |keys| && k < |keys|
    requires Trusted(s, q, now, keys[j], t) && Trusted(s, q, now, keys[k], t)
    ensures j == k
  {
    hide Valid, Trusted, Open, KeyOf;
    TrustedExactly(s, q, now, keys[j], t);
    TrustedExactly(s, q, now, keys[k], t);
    if j < k {
      NoOverlap(s, q.issuerId, keys, j, k, t);
    } else if k < j {
      NoOverlap(s, q.issuerId, keys, k, j, t);
    }
  }

  lemma NoOverlap(s: Snapshot, issuerId: Text, keys: seq<Text>, j: nat, k: nat, t: int)
    requires Valid(s) && Chain(s, issuerId, keys) && j < k < |keys|
    requires KeyOf(s, issuerId, keys[j]).Some? && KeyOf(s, issuerId, keys[k]).Some?
    ensures !(Within(KeyOf(s, issuerId, keys[j]).value, t) && Within(KeyOf(s, issuerId, keys[k]).value, t))
  {
    hide Valid, KeyOf;
    LinkAt(s, issuerId, keys, j + 1);
    RotationMeets(s, issuerId, keys[j], keys[j + 1]);
    if j + 1 < k {
      ChainRises(s, issuerId, keys, j + 1, k);
    }
  }

  /** The time a chain covers: from its first key on, and in its last key's interval only while
      that key is not revoked. */
  predicate Covers(s: Snapshot, issuerId: Text, keys: seq<Text>, t: int)
    requires |keys| > 0
  {
    var first, last := KeyOf(s, issuerId, keys[0]), KeyOf(s, issuerId, keys[|keys| - 1]);
    && first.Some? && last.Some?
    && first.value.from <= t
    && (t < last.value.from || (last.value.status != Withdrawn && Within(last.value, t)))
  }

  lemma ShorterChain(s: Snapshot, issuerId: Text, keys: seq<Text>)
    requires Chain(s, issuerId, keys) && |keys| > 1
    ensures Chain(s, issuerId, keys[..|keys| - 1])
  {
    var front := keys[..|keys| - 1];
    forall k | 0 < k < |front| ensures Link(s, issuerId, front, k) {
      assert Link(s, issuerId, keys, k);
    }
  }

  /** A time before the last key starts lies in the interval of exactly the key in force then. */
  lemma {:induction false} KeyInForce(s: Snapshot, issuerId: Text, keys: seq<Text>, t: int) returns (k: nat)
    requires Valid(s) && Chain(s, issuerId, keys) && |keys| > 1
    requires From(s, issuerId, keys[0]) <= t < From(s, issuerId, keys[|keys| - 1])
    ensures k < |keys| - 1
    ensures KeyOf(s, issuerId, keys[k]).Some? && KeyOf(s, issuerId, keys[k]).value.status == Retired
    ensures Within(KeyOf(s, issuerId, keys[k]).value, t)
    decreases |keys|
  {
    hide Valid, KeyOf;
    var n := |keys|;
    LinkAt(s, issuerId, keys, n - 1);
    RotationMeets(s, issuerId, keys[n - 2], keys[n - 1]);
    if From(s, issuerId, keys[n - 2]) <= t {
      k := n - 2;
    } else {
      ShorterChain(s, issuerId, keys);
      k := KeyInForce(s, issuerId, keys[..n - 1], t);
    }
  }

  /** A chain of an active issuer and schema has a trusted key at t exactly when it covers t. */
  lemma TrustedWhileCovered(s: Snapshot, q: Request, now: int, keys: seq<Text>, t: int)
    requires Valid(s) && Chain(s, q.issuerId, keys)
    ensures (exists k | 0 <= k < |keys| :: Trusted(s, q, now, keys[k], t))
      <==> Open(s, q, now) && IsSafeInteger(t) && Covers(s, q.issuerId, keys, t)
  {
    hide Valid, Trusted, Open, KeyOf;
    var n := |keys|;
    if k :| 0 <= k < n && Trusted(s, q, now, keys[k], t) {
      TrustedExactly(s, q, now, keys[k], t);
      TrustedIsCovered(s, q.issuerId, keys, k, t);
    }
    if Open(s, q, now) && IsSafeInteger(t) && Covers(s, q.issuerId, keys, t) {
      var last := KeyOf(s, q.issuerId, keys[n - 1]).value;
      if t < last.from && n > 1 {
        var k := KeyInForce(s, q.issuerId, keys, t);
        TrustedExactly(s, q, now, keys[k], t);
      } else {
        TrustedExactly(s, q, now, keys[n - 1], t);
      }
    }
  }

  lemma TrustedIsCovered(s: Snapshot, issuerId: Text, keys: seq<Text>, k: nat, t: int)
    requires Valid(s) && Chain(s, issuerId, keys) && k < |keys|
    requires KeyOf(s, issuerId, keys[k]).Some? && KeyOf(s, issuerId, keys[k]).value.status != Withdrawn
    requires Within(KeyOf(s, issuerId, keys[k]).value, t)
    ensures Covers(s, issuerId, keys, t)
  {
    hide Valid, KeyOf;
    var n := |keys|;
    if k > 0 {
      LinkAt(s, issuerId, keys, 1);
      RotationMeets(s, issuerId, keys[0], keys[1]);
      ChainRises(s, issuerId, keys, 0, k);
    }
    if k < n - 1 {
      LinkAt(s, issuerId, keys, k + 1);
      RotationMeets(s, issuerId, keys[k], keys[k + 1]);
      LinkAt(s, issuerId, keys, n - 1);
      RotationMeets(s, issuerId, keys[n - 2], keys[n - 1]);
      if k + 1 < n - 1 {
        ChainRises(s, issuerId, keys, k + 1, n - 1);
      }
    }
  }
}
