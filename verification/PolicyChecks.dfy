/** Which policies are valid and which requests they permit, told from their fields alone. */
module PolicyChecks {
  import opened Strings
  import opened Wrappers
  import opened Addresses
  import opened SignerPolicy
  import opened PolicyEvaluator

  // --------------------------------------------------------- a valid policy

  /** A native asset has no address; any other has one, which is an address or empty. */
  predicate AssetIsWellFormed(a: Asset) {
    match a.address
    case None => a.kind == Native
    case Some(address) => a.kind != Native && (address == [] || ValidAddress(address))
  }

  lemma AssetExactly(a: Asset)
    ensures ValidAsset(a) <==> AssetIsWellFormed(a)
  {
    hide ValidAddress;
  }

  /** The selectors m and n of the rules i and j name the same function of the same contract. */
  predicate SamePair(contracts: seq<Rule>, i: nat, m: nat, j: nat, n: nat) {
    && i < |contracts| && j < |contracts| && m < |contracts[i].selectors| && n < |contracts[j].selectors|
    && Lower(contracts[i].target) == Lower(contracts[j].target)
    && Lower(contracts[i].selectors[m]) == Lower(contracts[j].selectors[n])
  }

  ghost predicate PairsDiffer(contracts: seq<Rule>) {
    forall i: nat, m: nat, j: nat, n: nat | SamePair(contracts, i, m, j, n) :: i == j && m == n
  }

  /** A contract and a selector are told from their key, whose first part has a fixed length. */
  lemma PairKeyExactly(a: Address, s: Text, b: Address, t: Text)
    requires |a| == |b|
    ensures PairKey(a, s) == PairKey(b, t) <==> Lower(a) == Lower(b) && Lower(s) == Lower(t)
  {
    if PairKey(a, s) == PairKey(b, t) {
      assert Lower(a) == PairKey(a, s)[..|a|] && Lower(b) == PairKey(b, t)[..|a|];
      assert Lower(s) == PairKey(a, s)[|a| + 1..] && Lower(t) == PairKey(b, t)[|a| + 1..];
    }
  }

  /** The key of selector m of rule i. */
  predicate IsKey(contracts: seq<Rule>, key: Text, i: nat, m: nat) {
    i < |contracts| && m < |contracts[i].selectors| && key == PairKey(contracts[i].target, contracts[i].selectors[m])
  }

  lemma {:induction false} KeysExactly(contracts: seq<Rule>, key: Text)
    ensures key in AllKeys(contracts) <==> exists i: nat, m: nat :: IsKey(contracts, key, i, m)
  {
    hide PairKey;
    if |contracts| > 0 {
      var (front, last) := (contracts[..|contracts| - 1], contracts[|contracts| - 1]);
      KeysExactly(front, key);
      if key in AllKeys(front) {
        var i: nat, m: nat :| IsKey(front, key, i, m);
        assert IsKey(contracts, key, i, m);
      }
      if key in RuleKeys(last, |last.selectors|) {
        var m :| 0 <= m < |last.selectors| && RuleKeys(last, |last.selectors|)[m] == key;
        assert IsKey(contracts, key, |contracts| - 1, m);
      }
      forall i: nat, m: nat | IsKey(contracts, key, i, m) ensures key in AllKeys(contracts) {
        if i < |front| {
          assert IsKey(front, key, i, m);
        } else {
          assert RuleKeys(last, |last.selectors|)[m] == key;
        }
      }
    }
  }

  lemma DistinctJoin(a: seq<Text>, b: seq<Text>)
    ensures Distinct(a + b) <==> Distinct(a) && Distinct(b) && forall key | key in b :: key !in a
  {
    if Distinct(a + b) {
      forall i, j | 0 <= i < j < |a| ensures a[i] != a[j] {
        assert (a + b)[i] == a[i] && (a + b)[j] == a[j];
      }
      forall i, j | 0 <= i < j < |b| ensures b[i] != b[j] {
        assert (a + b)[|a| + i] == b[i] && (a + b)[|a| + j] == b[j];
      }
      forall key | key in b ensures key !in a {
        var j :| 0 <= j < |b| && b[j] == key;
        assert (a + b)[|a| + j] == key;
        forall i | 0 <= i < |a| ensures a[i] != key {
          assert (a + b)[i] == a[i];
        }
      }
    }
    if Distinct(a) && Distinct(b) && forall key | key in b :: key !in a {
      forall i, j | 0 <= i < j < |a + b| ensures (a + b)[i] != (a + b)[j] {
        if i < |a| && |a| <= j {
          assert b[j - |a|] in b && a[i] in a;
        }
      }
    }
  }

  predicate Targets(contracts: seq<Rule>) {
    forall r | r in contracts :: |r.target| == 42
  }

  /** No key occurs twice exactly when no contract and selector do, in any letters. */
  lemma {:induction false} DistinctExactly(contracts: seq<Rule>)
    requires Targets(contracts)
    ensures Distinct(AllKeys(contracts)) <==> PairsDiffer(contracts)
  {
    hide Distinct, PairKey, Lower;
    if |contracts| == 0 {
      NoKeys();
    } else {
      var (front, last) := (contracts[..|contracts| - 1], contracts[|contracts| - 1]);
      var keys := RuleKeys(last, |last.selectors|);
      DistinctExactly(front);
      DistinctJoin(AllKeys(front), keys);
      LastDistinct(contracts);
      LastApart(contracts);
      PairsSplit(contracts);
    }
  }

  /** The last rule, alone. */
  ghost predicate LastDiffers(contracts: seq<Rule>, k: nat) {
    forall m: nat, n: nat | SamePair(contracts, k, m, k, n) :: m == n
  }

  /** The last rule, against those before it. */
  ghost predicate LastIsNew(contracts: seq<Rule>, k: nat) {
    forall i: nat, m: nat, n: nat | i < k :: !SamePair(contracts, i, m, k, n)
  }

  lemma PairsSplit(contracts: seq<Rule>)
    requires |contracts| > 0
    ensures PairsDiffer(contracts) <==>
      PairsDiffer(contracts[..|contracts| - 1]) && LastDiffers(contracts, |contracts| - 1)
      && LastIsNew(contracts, |contracts| - 1)
  {
    hide Lower;
    var (front, k) := (contracts[..|contracts| - 1], |contracts| - 1);
    forall i: nat, m: nat, j: nat, n: nat | i < k && j < k
      ensures SamePair(front, i, m, j, n) <==> SamePair(contracts, i, m, j, n) {}
    forall i: nat, m: nat, n: nat
      ensures SamePair(contracts, i, m, k, n) <==> SamePair(contracts, k, n, i, m) {}
    if PairsDiffer(contracts) {
      assert PairsDiffer(front);
      assert LastIsNew(contracts, k);
    }
    if PairsDiffer(front) && LastDiffers(contracts, k) && LastIsNew(contracts, k) {
      forall i: nat, m: nat, j: nat, n: nat | SamePair(contracts, i, m, j, n) ensures i == j && m == n {
        if i < k && j < k {
          assert SamePair(front, i, m, j, n);
        }
      }
    }
  }

  lemma LastDistinct(contracts: seq<Rule>)
    requires |contracts| > 0
    ensures
      var last := contracts[|contracts| - 1];
      Distinct(RuleKeys(last, |last.selectors|)) <==> LastDiffers(contracts, |contracts| - 1)
  {
    hide Lower, PairKey;
    var (last, k) := (contracts[|contracts| - 1], |contracts| - 1);
    var keys := RuleKeys(last, |last.selectors|);
    forall m: nat, n: nat | m < |keys| && n < |keys| ensures keys[m] == keys[n] <==> SamePair(contracts, k, m, k, n) {
      PairKeyExactly(last.target, last.selectors[m], last.target, last.selectors[n]);
    }
  }

  lemma LastApart(contracts: seq<Rule>)
    requires |contracts| > 0 && Targets(contracts)
    ensures
      var last := contracts[|contracts| - 1];
      (forall key | key in RuleKeys(last, |last.selectors|) :: key !in AllKeys(contracts[..|contracts| - 1]))
      <==> LastIsNew(contracts, |contracts| - 1)
  {
    hide Lower, PairKey, AllKeys;
    var (front, last, k) := (contracts[..|contracts| - 1], contracts[|contracts| - 1], |contracts| - 1);
    var keys := RuleKeys(last, |last.selectors|);
    assert last in contracts;
    forall i: nat, m: nat, n: nat | i < k && n < |keys|
      ensures IsKey(front, keys[n], i, m) <==> SamePair(contracts, i, m, k, n) {
      assert contracts[i] in contracts;
      if m < |contracts[i].selectors| {
        PairKeyExactly(contracts[i].target, contracts[i].selectors[m], last.target, last.selectors[n]);
      }
    }
    forall n: nat | n < |keys|
      ensures keys[n] in AllKeys(front) <==> exists i: nat, m: nat :: IsKey(front, keys[n], i, m) {
      KeysExactly(front, keys[n]);
    }
    if forall key | key in keys :: key !in AllKeys(front) {
      forall i: nat, m: nat, n: nat | i < k ensures !SamePair(contracts, i, m, k, n) {
        if n < |keys| {
          assert keys[n] in keys;
          assert !IsKey(front, keys[n], i, m);
        }
      }
    }
    if LastIsNew(contracts, k) {
      forall key | key in keys ensures key !in AllKeys(front) {
        var n :| 0 <= n < |keys| && keys[n] == key;
        forall i: nat, m: nat ensures !IsKey(front, key, i, m) {
          assert i < k ==> !SamePair(contracts, i, m, k, n);
        }
      }
    }
  }

  predicate RuleIsWellFormed(r: Rule) {
    && ValidAddress(r.target) && r.selectors != []
    && (forall s | s in r.selectors :: ValidSelector(s))
    && (r.assets.Some? ==> forall a | a in r.assets.value :: AssetIsWellFormed(a))
  }

  /** A policy is valid exactly when its ids are there, its chain and times are whole numbers in order, it has rules,
      all well formed, no function of a contract is named twice in any letters, and its quota is positive. */
  lemma PolicyExactly(p: Policy)
    ensures ValidPolicy(p) <==>
      && p.policyId != [] && p.signerId != []
      && p.chainId >= 1 && IsSafeInteger(p.chainId)
      && IsSafeInteger(p.validFrom) && IsSafeInteger(p.expiresAt) && p.validFrom < p.expiresAt
      && p.contracts != [] && (forall r | r in p.contracts :: RuleIsWellFormed(r))
      && PairsDiffer(p.contracts)
      && (p.frequency.Some? ==> p.frequency.value.windowSeconds >= 1 && p.frequency.value.maxOperations >= 1)
  {
    hide ValidAddress, ValidSelector, ValidAsset, AssetIsWellFormed, Distinct, AllKeys, PairsDiffer, IsSafeInteger;
    forall r | r in p.contracts ensures ValidRule(r) <==> RuleIsWellFormed(r) {
      if r.assets.Some? {
        forall a | a in r.assets.value ensures ValidAsset(a) <==> AssetIsWellFormed(a) {
          AssetExactly(a);
        }
      }
    }
    if forall r | r in p.contracts :: RuleIsWellFormed(r) {
      forall r | r in p.contracts ensures |r.target| == 42 {
        AddressLength(r.target);
      }
      DistinctExactly(p.contracts);
    }
  }

  lemma AddressLength(a: Address)
    requires ValidAddress(a)
    ensures |a| == 42
  {}

  // ------------------------------------------------------ a request permitted

  /** Rule k is the first to name the target. */
  predicate FirstFor(rules: seq<Rule>, target: Address, k: nat) {
    k < |rules| && Lower(rules[k].target) == Lower(target) && forall j | 0 <= j < k ::
      Lower(rules[j].target) != Lower(target)
  }

  lemma {:induction false} RuleFound(rules: seq<Rule>, target: Address)
    ensures FindRule(rules, target).Some? ==>
      exists k: nat :: FirstFor(rules, target, k) && FindRule(rules, target).value == rules[k]
    ensures FindRule(rules, target).None? ==> forall r | r in rules :: Lower(r.target) != Lower(target)
  {
    hide Lower;
    if |rules| > 0 {
      if Lower(rules[0].target) == Lower(target) {
        assert FirstFor(rules, target, 0);
      } else {
        RuleFound(rules[1..], target);
        if FindRule(rules, target).Some? {
          var k: nat :| FirstFor(rules[1..], target, k) && FindRule(rules, target).value == rules[1..][k];
          forall j | 0 <= j < k + 1 ensures Lower(rules[j].target) != Lower(target) {
            assert j > 0 ==> rules[j] == rules[1..][j - 1];
          }
          assert FirstFor(rules, target, k + 1);
        }
      }
    }
  }

  /** Of one kind, and unless native with one address in any letters, or both with none. */
  predicate SameAsset(a: Asset, q: Request) {
    && a.kind == q.assetKind
    && (a.kind != Native ==>
          match (a.address, q.assetAddress)
          case (None, None) => true
          case (Some(x), Some(y)) => Lower(x) == Lower(y)
          case _ => false)
  }

  predicate FirstAsset(assets: seq<Asset>, q: Request, k: nat) {
    k < |assets| && SameAsset(assets[k], q) && forall j | 0 <= j < k :: !SameAsset(assets[j], q)
  }

  lemma SameExactly(a: Asset, q: Request)
    ensures AssetMatches(a, q) <==> SameAsset(a, q)
  {
    hide Lower;
  }

  lemma {:induction false} AssetFound(assets: seq<Asset>, q: Request)
    ensures FindAsset(assets, q).Some? ==>
      exists k: nat :: FirstAsset(assets, q, k) && FindAsset(assets, q).value == assets[k]
    ensures FindAsset(assets, q).None? ==> forall a | a in assets :: !SameAsset(a, q)
  {
    hide AssetMatches, SameAsset;
    if |assets| > 0 {
      SameExactly(assets[0], q);
      if SameAsset(assets[0], q) {
        assert FirstAsset(assets, q, 0);
      } else {
        AssetFound(assets[1..], q);
        if FindAsset(assets, q).Some? {
          var k: nat :| FirstAsset(assets[1..], q, k) && FindAsset(assets, q).value == assets[1..][k];
          forall j | 0 <= j < k + 1 ensures !SameAsset(assets[j], q) {
            assert j > 0 ==> assets[j] == assets[1..][j - 1];
          }
          assert FirstAsset(assets, q, k + 1);
        }
      }
    }
  }

  predicate Within(amount: nat, limit: Option<nat>) {
    match limit
    case None => true
    case Some(most) => amount <= most
  }

  /** The selector and operation are listed, value and amount are within the rule's limits, and where assets are
      listed the first that matches allows the amount. */
  predicate RuleAllows(rule: Rule, q: Request) {
    && (exists s | s in rule.selectors :: Lower(s) == Lower(q.selector))
    && (rule.operations.Some? ==> q.operation in rule.operations.value)
    && Within(q.value, rule.maxValue) && Within(q.amount, rule.maxAmount)
    && (rule.assets.Some? ==>
          exists k: nat | k < |rule.assets.value| ::
            FirstAsset(rule.assets.value, q, k) && Within(q.amount, rule.assets.value[k].maxAmount))
  }

  lemma RuleAllowsExactly(rule: Rule, q: Request)
    ensures RulePermits(rule, q) <==> RuleAllows(rule, q)
  {
    hide Lower, FirstAsset, FindAsset;
    if rule.assets.Some? {
      var assets := rule.assets.value;
      AssetFound(assets, q);
      forall k: nat, j: nat | FirstAsset(assets, q, k) && FirstAsset(assets, q, j) ensures k == j {
        FirstIsOne(assets, q, k, j);
      }
      forall k: nat | FirstAsset(assets, q, k) ensures k < |assets| && SameAsset(assets[k], q) && assets[k] in assets {
        FirstIsOne(assets, q, k, k);
      }
    }
  }

  lemma FirstIsOne(assets: seq<Asset>, q: Request, k: nat, j: nat)
    requires FirstAsset(assets, q, k) && FirstAsset(assets, q, j)
    ensures k == j && k < |assets| && SameAsset(assets[k], q)
  {
    hide SameAsset;
  }

  predicate RequestIsWellFormed(q: Request) {
    && q.requestId != [] && q.sessionId != [] && q.signerId != [] && q.policyId != []
    && q.chainId >= 1 && IsSafeInteger(q.chainId) && ValidAddress(q.target) && ValidSelector(q.selector)
    && q.at >= 0 && IsSafeInteger(q.at)
  }

  predicate SessionSpeaksFor(s: Session, q: Request) {
    s.signerId == q.signerId && s.policyId == q.policyId && s.issuedAt <= q.at && q.at < s.expiresAt
  }

  predicate PolicyAllows(p: Policy, q: Request) {
    && p.validFrom <= q.at && q.at < p.expiresAt && p.chainId == q.chainId
    && (p.allowedOperations.Some? ==> q.operation in p.allowedOperations.value)
    && exists k: nat | k < |p.contracts| :: FirstFor(p.contracts, q.target, k) && RuleAllows(p.contracts[k], q)
  }

  predicate EvidenceHolds(e: Evidence, q: Request) {
    (e.means == Passkey || e.means == Recovery) && e.requestId == q.requestId && e.verifiedAt <= q.at
      && q.at < e.expiresAt
  }

  /** What the request reserves: its own id, and its amount under its signer, policy, contract and selector. */
  function Reservation(g: Registry, q: Request): Input
    requires q.policyId in g.policies
  {
    Input(q.requestId, FrequencyKey(Bucket(q.signerId, q.policyId, Lower(q.target), Lower(q.selector))), q.at, q.amount,
          g.policies[q.policyId].frequency)
  }

  lemma PolicyAllowsExactly(g: Registry, q: Request)
    requires ValidRegistry(g)
    ensures PolicyPermits(g, q) <==>
      q.policyId in g.policies && q.policyId !in g.revokedPolicies && PolicyAllows(g.policies[q.policyId], q)
  {
    hide Lower, RuleAllows, RulePermits, FindRule, FirstFor, ValidFrequency;
    if q.policyId in g.policies {
      var rules := g.policies[q.policyId].contracts;
      RuleFound(rules, q.target);
      forall k: nat | FirstFor(rules, q.target, k)
        ensures k < |rules| && FindRule(rules, q.target) == Some(rules[k]) {
        FirstRule(rules, q.target, k);
      }
      if FindRule(rules, q.target).Some? {
        RuleAllowsExactly(FindRule(rules, q.target).value, q);
      }
    }
  }

  lemma FirstRule(rules: seq<Rule>, target: Address, k: nat)
    requires FirstFor(rules, target, k)
    ensures k < |rules| && FindRule(rules, target) == Some(rules[k])
  {
    hide Lower;
    RuleFound(rules, target);
    assert rules[k] in rules;
  }

  /** A request is allowed exactly when it is well formed, its session is registered, not revoked and speaks for it,
      its policy is registered, not revoked and allows it, a sensitive operation has evidence that holds, and what it
      reserves is free. */
  lemma AllowedFor(g: Registry, st: Store, q: Request, verified: bool)
    requires ValidRegistry(g)
    ensures Authorize(g, st, q, verified).1 == Allow <==>
      && RequestIsWellFormed(q)
      && q.sessionId in g.sessions && q.sessionId !in g.revokedSessions && SessionSpeaksFor(g.sessions[q.sessionId], q)
      && q.policyId in g.policies && q.policyId !in g.revokedPolicies && PolicyAllows(g.policies[q.policyId], q)
      && (q.operation != Transaction ==> verified && q.stepUp.Some? && EvidenceHolds(q.stepUp.value, q))
      && Usable(Reservation(g, q)) && ReserveIn(st, Reservation(g, q)).1 == Reserved
    ensures Authorize(g, st, q, verified).1 == Allow ==>
      Authorize(g, st, q, verified).0 == ReserveIn(st, Reservation(g, q)).0
  {
    hide Lower, PolicyPermits, PolicyAllows, ValidAddress, ValidSelector, FrequencyKey, ReserveIn, IsSafeInteger,
      Refusal, Authorize;
    AllowedExactly(g, st, q, verified);
    PolicyAllowsExactly(g, q);
    Reserves(g, st, q, verified);
    if q.policyId in g.policies {
      assert InputOf(g, q) == Reservation(g, q);
    }
  }

  lemma Reserves(g: Registry, st: Store, q: Request, verified: bool)
    requires ValidRegistry(g)
    ensures Authorize(g, st, q, verified).1 == Allow ==>
      Authorize(g, st, q, verified).0 == ReserveIn(st, InputOf(g, q)).0
  {
    hide Refusal, ReserveIn, InputOf;
    RefusalIsNoPermission(g, q, verified);
  }
}
