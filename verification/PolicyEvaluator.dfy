/** The signer policy evaluator: validating a policy, authorising requests, and the quota that all runs keep. */
module PolicyEvaluator {
  import opened Strings
  import opened Wrappers
  import opened Addresses
  import opened SignerPolicy

  datatype Operation = Transaction | RotateOwner | Export | Migrate | InstallModule

  datatype AssetKind = Native | Erc20 | Erc721 | Erc1155

  datatype Asset = Asset(kind: AssetKind, address: Option<Address>, maxAmount: Option<nat>)

  datatype Rule = Rule(
    target: Address, selectors: seq<Text>, operations: Option<set<Operation>>, assets: Option<seq<Asset>>,
    maxValue: Option<nat>, maxAmount: Option<nat>)

  datatype Policy = Policy(
    policyId: Text, signerId: Text, chainId: int, validFrom: int, expiresAt: int, contracts: seq<Rule>,
    allowedOperations: Option<set<Operation>>, frequency: Option<Frequency>)

  // ------------------------------------------------------ validating a policy

  predicate ValidAsset(a: Asset) {
    (a.kind == Native <==> a.address.None?)
      && (a.address.Some? && |a.address.value| > 0 ==> ValidAddress(a.address.value))
  }

  predicate ValidRule(r: Rule) {
    && ValidAddress(r.target) && |r.selectors| > 0
    && (forall s | s in r.selectors :: ValidSelector(s))
    && (r.assets.Some? ==> forall a | a in r.assets.value :: ValidAsset(a))
  }

  predicate ValidHeader(p: Policy) {
    && |p.policyId| > 0 && |p.signerId| > 0
    && IsSafeInteger(p.chainId) && p.chainId >= 1
    && IsSafeInteger(p.validFrom) && IsSafeInteger(p.expiresAt) && p.validFrom < p.expiresAt
    && |p.contracts| > 0
  }

  /** The text `seen` holds for a contract and a selector. */
  function PairKey(target: Address, selector: Text): Text {
    Lower(target) + [COLON] + Lower(selector)
  }

  function RuleKeys(r: Rule, n: nat): (keys: seq<Text>)
    requires n <= |r.selectors|
    ensures |keys| == n
  {
    seq(n, i requires 0 <= i < n => PairKey(r.target, r.selectors[i]))
  }

  function AllKeys(contracts: seq<Rule>): seq<Text> {
    if |contracts| == 0 then []
    else
      var last := contracts[|contracts| - 1];
      AllKeys(contracts[..|contracts| - 1]) + RuleKeys(last, |last.selectors|)
  }

  predicate Distinct(keys: seq<Text>) {
    forall i, j | 0 <= i < j < |keys| :: keys[i] != keys[j]
  }

  predicate ValidPolicy(p: Policy) {
    && ValidHeader(p)
    && (forall r | r in p.contracts :: ValidRule(r))
    && Distinct(AllKeys(p.contracts))
    && (p.frequency.Some? ==> ValidFrequency(p.frequency.value))
  }

  lemma DistinctGrows(keys: seq<Text>, key: Text)
    requires Distinct(keys)
    ensures Distinct(keys + [key]) <==> key !in keys
  {
    if key in keys {
      var i :| 0 <= i < |keys| && keys[i] == key;
      assert (keys + [key])[i] == (keys + [key])[|keys|];
    }
  }

  lemma DistinctPrefix(keys: seq<Text>, more: seq<Text>)
    requires Distinct(keys + more)
    ensures Distinct(keys)
  {
    forall i, j | 0 <= i < j < |keys| ensures keys[i] != keys[j] {
      assert (keys + more)[i] == keys[i] && (keys + more)[j] == keys[j];
    }
  }

  lemma {:induction false} KeysPrefix(contracts: seq<Rule>, n: nat)
    requires n <= |contracts| && Distinct(AllKeys(contracts))
    ensures Distinct(AllKeys(contracts[..n]))
    decreases |contracts|
  {
    if n == |contracts| {
      assert contracts[..n] == contracts;
    } else {
      var last := contracts[|contracts| - 1];
      DistinctPrefix(AllKeys(contracts[..|contracts| - 1]), RuleKeys(last, |last.selectors|));
      assert contracts[..|contracts| - 1][..n] == contracts[..n];
      KeysPrefix(contracts[..|contracts| - 1], n);
    }
  }

  /** What a duplicate in the first rules, or in the part of the next one, means for the whole policy. */
  lemma DuplicateStays(contracts: seq<Rule>, i: nat, n: nat)
    requires i < |contracts| && n <= |contracts[i].selectors|
    requires !Distinct(AllKeys(contracts[..i]) + RuleKeys(contracts[i], n))
    ensures !Distinct(AllKeys(contracts))
  {
    hide PairKey, Distinct;
    if Distinct(AllKeys(contracts)) {
      KeysPrefix(contracts, i + 1);
      assert contracts[..i + 1][..i] == contracts[..i];
      var all := RuleKeys(contracts[i], |contracts[i].selectors|);
      assert all == RuleKeys(contracts[i], n) + all[n..];
      assert AllKeys(contracts[..i]) + all == (AllKeys(contracts[..i]) + RuleKeys(contracts[i], n)) + all[n..];
      DistinctPrefix(AllKeys(contracts[..i]) + RuleKeys(contracts[i], n), all[n..]);
    }
  }

  /** `validatePolicy`: true where it does not throw. */
  method ValidatePolicy(p: Policy) returns (ok: bool)
    ensures ok <==> ValidPolicy(p)
  {
    hide ValidAddress, ValidSelector, ValidAsset, PairKey, AllKeys, RuleKeys, Distinct, ValidFrequency, ValidHeader,
      ValidRule;
    if !ValidHeader(p) {
      return false;
    }
    NoKeys();
    assert p.contracts[..0] == [];
    var seen: set<Text> := {};
    for i := 0 to |p.contracts|
      invariant forall r | r in p.contracts[..i] :: ValidRule(r)
      invariant Distinct(AllKeys(p.contracts[..i]))
      invariant forall k :: k in seen <==> k in AllKeys(p.contracts[..i])
    {
      var contract := p.contracts[i];
      assert contract in p.contracts;
      RuleParts(contract);
      AllKeysStep(p.contracts, i);
      if !ValidAddress(contract.target) || |contract.selectors| == 0 {
        return false;
      }
      ghost var before := AllKeys(p.contracts[..i]);
      var valid, after := SelectorsValid(contract, seen, before);
      if !valid {
        if !Distinct(before + RuleKeys(contract, |contract.selectors|)) {
          DuplicateStays(p.contracts, i, |contract.selectors|);
        }
        return false;
      }
      seen := after;
      if contract.assets.Some? {
        valid := AssetsValid(contract.assets.value);
        if !valid {
          return false;
        }
      }
      assert p.contracts[..i + 1] == p.contracts[..i] + [contract];
    }
    assert p.contracts[..|p.contracts|] == p.contracts;
    ok := p.frequency.Some? ==> ValidFrequency(p.frequency.value);
  }

  lemma RuleParts(r: Rule)
    ensures ValidRule(r) <==>
      && ValidAddress(r.target) && |r.selectors| > 0
      && (forall s | s in r.selectors :: ValidSelector(s))
      && (r.assets.Some? ==> forall a | a in r.assets.value :: ValidAsset(a))
  {}

  lemma AllKeysStep(contracts: seq<Rule>, i: nat)
    requires i < |contracts|
    ensures AllKeys(contracts[..i + 1]) == AllKeys(contracts[..i]) + RuleKeys(contracts[i], |contracts[i].selectors|)
  {
    assert contracts[..i + 1][..i] == contracts[..i];
  }

  /** The loop over a rule's selectors, with the keys seen so far. */
  method SelectorsValid(contract: Rule, seen: set<Text>, ghost before: seq<Text>) returns (ok: bool, after: set<Text>)
    requires Distinct(before) && forall k :: k in seen <==> k in before
    ensures ok <==>
      && (forall s | s in contract.selectors :: ValidSelector(s))
      && Distinct(before + RuleKeys(contract, |contract.selectors|))
    ensures ok ==> forall k :: k in after <==> k in before + RuleKeys(contract, |contract.selectors|)
  {
    hide ValidSelector, PairKey, Distinct;
    after := seen;
    assert before + RuleKeys(contract, 0) == before;
    for j := 0 to |contract.selectors|
      invariant forall s | s in contract.selectors[..j] :: ValidSelector(s)
      invariant Distinct(before + RuleKeys(contract, j))
      invariant forall k :: k in after <==> k in before + RuleKeys(contract, j)
    {
      if !ValidSelector(contract.selectors[j]) {
        assert contract.selectors[j] in contract.selectors;
        return false, after;
      }
      var key := PairKey(contract.target, contract.selectors[j]);
      assert before + RuleKeys(contract, j + 1) == (before + RuleKeys(contract, j)) + [key];
      DistinctGrows(before + RuleKeys(contract, j), key);
      if key in after {
        if Distinct(before + RuleKeys(contract, |contract.selectors|)) {
          LaterDuplicate(contract, before, j + 1);
        }
        return false, after;
      }
      after := after + {key};
      assert contract.selectors[..j + 1] == contract.selectors[..j] + [contract.selectors[j]];
    }
    assert contract.selectors[..|contract.selectors|] == contract.selectors;
    ok := true;
  }

  lemma LaterDuplicate(contract: Rule, before: seq<Text>, n: nat)
    requires n <= |contract.selectors| && Distinct(before + RuleKeys(contract, |contract.selectors|))
    ensures Distinct(before + RuleKeys(contract, n))
  {
    hide PairKey, Distinct;
    var all := RuleKeys(contract, |contract.selectors|);
    assert all == RuleKeys(contract, n) + all[n..];
    assert before + all == (before + RuleKeys(contract, n)) + all[n..];
    DistinctPrefix(before + RuleKeys(contract, n), all[n..]);
  }

  /** The loop over a rule's assets. */
  method AssetsValid(assets: seq<Asset>) returns (ok: bool)
    ensures ok <==> forall a | a in assets :: ValidAsset(a)
  {
    hide ValidAsset;
    for j := 0 to |assets|
      invariant forall a | a in assets[..j] :: ValidAsset(a)
    {
      if !ValidAsset(assets[j]) {
        assert assets[j] in assets;
        return false;
      }
    }
    assert assets[..|assets|] == assets;
    ok := true;
  }

  lemma NoKeys()
    ensures AllKeys([]) == [] && Distinct(AllKeys([]))
  {}

  // --------------------------------------------------------------- authorising

  datatype Session = Session(signerId: Text, policyId: Text, issuedAt: int, expiresAt: int)

  datatype Registry = Registry(
    policies: map<Text, Policy>, sessions: map<Text, Session>, revokedPolicies: set<Text>, revokedSessions: set<Text>)

  /** What the evidence says it was obtained with; any text but the two known ones is `Other`. */
  datatype Means = Passkey | Recovery | Other

  datatype Evidence = Evidence(means: Means, requestId: Text, verifiedAt: int, expiresAt: int)

  datatype Request = Request(
    requestId: Text, sessionId: Text, signerId: Text, policyId: Text, chainId: int, target: Address, selector: Text,
    operation: Operation, value: nat, assetKind: AssetKind, assetAddress: Option<Address>, amount: nat, at: int,
    stepUp: Option<Evidence>)

  datatype Reason =
    | Allow | InvalidRequest | SessionNotFound | SessionRevoked | SessionExpired | PolicyNotFound | PolicyRevoked
    | PolicyNotYetActive | PolicyExpired | SignerMismatch | ChainNotAllowed | ContractNotAllowed | SelectorNotAllowed
    | OperationNotAllowed | AssetNotAllowed | AmountExceeded | FrequencyDenied | StepUpRequired | StepUpInvalid
    | ReplayDetected

  predicate ValidRequest(q: Request) {
    && |q.requestId| > 0 && |q.sessionId| > 0 && |q.signerId| > 0 && |q.policyId| > 0
    && IsSafeInteger(q.chainId) && q.chainId >= 1
    && ValidAddress(q.target) && ValidSelector(q.selector)
    && IsSafeInteger(q.at) && q.at >= 0
  }

  /** The first rule that names the target; later ones are never looked at. */
  function FindRule(rules: seq<Rule>, target: Address): Option<Rule> {
    if |rules| == 0 then None
    else if Lower(rules[0].target) == Lower(target) then Some(rules[0])
    else FindRule(rules[1..], target)
  }

  predicate AssetMatches(a: Asset, q: Request) {
    && a.kind == q.assetKind
    && (a.kind == Native
        || (a.address.Some? && q.assetAddress.Some? && Lower(a.address.value) == Lower(q.assetAddress.value))
        || (a.address.None? && q.assetAddress.None?))
  }

  function FindAsset(assets: seq<Asset>, q: Request): Option<Asset> {
    if |assets| == 0 then None else if AssetMatches(assets[0], q) then Some(assets[0]) else FindAsset(assets[1..], q)
  }

  predicate Sensitive(o: Operation) {
    o != Transaction
  }

  predicate Over(amount: nat, limit: Option<nat>) {
    limit.Some? && amount > limit.value
  }

  /** The checks on the rule: None when the request passes. */
  function RuleRefusal(rule: Rule, q: Request): Option<Reason> {
    if forall s | s in rule.selectors :: Lower(s) != Lower(q.selector) then Some(SelectorNotAllowed)
    else if rule.operations.Some? && q.operation !in rule.operations.value then Some(OperationNotAllowed)
    else if Over(q.value, rule.maxValue) || Over(q.amount, rule.maxAmount) then Some(AmountExceeded)
    else if rule.assets.Some? then
      match FindAsset(rule.assets.value, q)
      case None => Some(AssetNotAllowed)
      case Some(asset) => if Over(q.amount, asset.maxAmount) then Some(AmountExceeded) else None
    else None
  }

  /** `verified` is the step-up port's answer. */
  function StepUpRefusal(q: Request, verified: bool): Option<Reason> {
    if !Sensitive(q.operation) then None
    else if q.stepUp.None? then Some(StepUpRequired)
    else if q.stepUp.value.means == Other || q.stepUp.value.requestId != q.requestId || q.at < q.stepUp.value.verifiedAt
      || q.at >= q.stepUp.value.expiresAt
            || !verified then Some(StepUpInvalid)
    else None
  }

  function PolicyRefusal(g: Registry, q: Request): Option<Reason> {
    if q.policyId !in g.policies then Some(PolicyNotFound)
    else
      var p := g.policies[q.policyId];
      if p.policyId in g.revokedPolicies then Some(PolicyRevoked)
      else if q.at < p.validFrom then Some(PolicyNotYetActive)
      else if q.at >= p.expiresAt then Some(PolicyExpired)
      else if p.chainId != q.chainId then Some(ChainNotAllowed)
      else if p.allowedOperations.Some? && q.operation !in p.allowedOperations.value then Some(OperationNotAllowed)
      else
        match FindRule(p.contracts, q.target)
        case None => Some(ContractNotAllowed)
        case Some(rule) => RuleRefusal(rule, q)
  }

  /** Everything `authorize` checks before it reserves. */
  function Refusal(g: Registry, q: Request, verified: bool): Option<Reason> {
    if !ValidRequest(q) then Some(InvalidRequest)
    else if q.sessionId !in g.sessions then Some(SessionNotFound)
    else if q.sessionId in g.revokedSessions then Some(SessionRevoked)
    else
      var session := g.sessions[q.sessionId];
      if q.at < session.issuedAt || q.at >= session.expiresAt then Some(SessionExpired)
      else if session.signerId != q.signerId || session.policyId != q.policyId then Some(SignerMismatch)
      else
        var refused := PolicyRefusal(g, q);
        if refused.Some? then refused else StepUpRefusal(q, verified)
  }

  function BucketOf(q: Request): Bucket {
    Bucket(q.signerId, q.policyId, Lower(q.target), Lower(q.selector))
  }

  predicate ValidRegistry(g: Registry) {
    forall id | id in g.policies ::
      g.policies[id].policyId == id
        && (g.policies[id].frequency.Some? ==> ValidFrequency(g.policies[id].frequency.value))
  }

  /** The reservation of a request whose policy is known. */
  function InputOf(g: Registry, q: Request): (i: Input)
    requires ValidRegistry(g)
    ensures Usable(i)
  {
    Input(q.requestId, FrequencyKey(BucketOf(q)), q.at, q.amount,
          if q.policyId in g.policies then g.policies[q.policyId].frequency else None)
  }

  function Authorize(g: Registry, st: Store, q: Request, verified: bool): (Store, Reason)
    requires ValidRegistry(g)
  {
    var refused := Refusal(g, q, verified);
    if refused.Some? then (st, refused.value)
    else
      var (next, outcome) := ReserveIn(st, InputOf(g, q));
      (next,
       match outcome
       case Reserved => Allow
       case Replay => ReplayDetected
       case FrequencyExceeded => FrequencyDenied)
  }

  /** What a rule permits. */
  predicate RulePermits(rule: Rule, q: Request) {
    && (exists s | s in rule.selectors :: Lower(s) == Lower(q.selector))
    && (rule.operations.Some? ==> q.operation in rule.operations.value)
    && !Over(q.value, rule.maxValue) && !Over(q.amount, rule.maxAmount)
    && (rule.assets.Some? ==>
          FindAsset(rule.assets.value, q).Some? && !Over(q.amount, FindAsset(rule.assets.value, q).value.maxAmount))
  }

  /** The session speaks for the signer and policy, and is in force. */
  predicate SessionPermits(g: Registry, q: Request) {
    && q.sessionId in g.sessions && q.sessionId !in g.revokedSessions
    && g.sessions[q.sessionId].issuedAt <= q.at < g.sessions[q.sessionId].expiresAt
    && g.sessions[q.sessionId].signerId == q.signerId && g.sessions[q.sessionId].policyId == q.policyId
  }

  predicate PolicyPermits(g: Registry, q: Request) {
    && q.policyId in g.policies
    && var p := g.policies[q.policyId];
    && p.policyId !in g.revokedPolicies && p.validFrom <= q.at < p.expiresAt && p.chainId == q.chainId
    && (p.allowedOperations.Some? ==> q.operation in p.allowedOperations.value)
    && FindRule(p.contracts, q.target).Some? && RulePermits(FindRule(p.contracts, q.target).value, q)
  }

  predicate StepUpPermits(q: Request, verified: bool) {
    Sensitive(q.operation) ==>
      && q.stepUp.Some? && verified && q.stepUp.value.means != Other && q.stepUp.value.requestId == q.requestId
      && q.stepUp.value.verifiedAt <= q.at < q.stepUp.value.expiresAt
  }

  /** A request is allowed exactly when it is well formed, its session, policy, rule and step-up all permit
      it, and its reservation succeeds. */
  lemma AllowedExactly(g: Registry, st: Store, q: Request, verified: bool)
    requires ValidRegistry(g)
    ensures Authorize(g, st, q, verified).1 == Allow <==>
      && ValidRequest(q) && SessionPermits(g, q) && PolicyPermits(g, q) && StepUpPermits(q, verified)
      && ReserveIn(st, InputOf(g, q)).1 == Reserved
  {
    hide ValidRequest, FindRule, FindAsset, ReserveIn, InputOf, ValidRegistry, Lower;
    RefusalIsNoPermission(g, q, verified);
    if FindRuleOf(g, q).Some? {
      RuleExactly(FindRuleOf(g, q).value, q);
    }
  }

  function FindRuleOf(g: Registry, q: Request): Option<Rule> {
    if q.policyId in g.policies then FindRule(g.policies[q.policyId].contracts, q.target) else None
  }

  lemma RuleExactly(rule: Rule, q: Request)
    ensures RuleRefusal(rule, q).None? <==> RulePermits(rule, q)
  {
    hide FindAsset, Lower;
  }

  /** A denied request consumes nothing: neither its id nor any quota. */
  lemma DenialConsumesNothing(g: Registry, st: Store, q: Request, verified: bool)
    requires ValidRegistry(g)
    ensures Authorize(g, st, q, verified).1 != Allow ==> Authorize(g, st, q, verified).0 == st
  {
    hide Refusal, ReserveIn, ValidRegistry;
    RefusalIsNoPermission(g, q, verified);
    DeniedChangesNothing(st, InputOf(g, q));
  }

  lemma RefusalIsNoPermission(g: Registry, q: Request, verified: bool)
    ensures Refusal(g, q, verified) != Some(Allow)
  {
    hide ValidRequest, FindRule, FindAsset, AssetMatches;
  }

  /** A sensitive operation is allowed only with step-up evidence, from a passkey or recovery, bound to this very
      request and in force. */
  lemma SensitiveNeedsStepUp(g: Registry, st: Store, q: Request, verified: bool)
    requires ValidRegistry(g) && Authorize(g, st, q, verified).1 == Allow && Sensitive(q.operation)
    ensures verified && q.stepUp.Some? && q.stepUp.value.means in {Passkey, Recovery}
      && q.stepUp.value.requestId == q.requestId
    ensures q.stepUp.value.verifiedAt <= q.at < q.stepUp.value.expiresAt
  {
    hide ValidRequest, PolicyRefusal, ReserveIn, ValidRegistry;
    RefusalIsNoPermission(g, q, verified);
  }

  // ------------------------------------------------------------------- runs

  /** A request, the registry as it reads it, and the step-up port's answer.  Requests are listed in the
      order of their reservations; policies, sessions and revocations may change from one to the next. */
  datatype Attempt = Attempt(g: Registry, q: Request, verified: bool)

  predicate AllValid(attempts: seq<Attempt>) {
    forall a | a in attempts :: ValidRegistry(a.g)
  }

  /** The reservations of the requests allowed in a run, in order. */
  function Allowed(st: Store, attempts: seq<Attempt>): seq<Input>
    requires AllValid(attempts)
    decreases |attempts|
  {
    if |attempts| == 0 then []
    else
      var a := attempts[0];
      var (next, reason) := Authorize(a.g, st, a.q, a.verified);
      (if reason == Allow then [InputOf(a.g, a.q)] else []) + Allowed(next, attempts[1..])
  }

  /** The reservations tried: those of the requests that pass every other check. */
  function Tried(attempts: seq<Attempt>): (r: seq<Input>)
    requires AllValid(attempts)
    ensures forall i | i in r :: Usable(i)
  {
    if |attempts| == 0 then []
    else TriedBy(attempts[0]) + Tried(attempts[1..])
  }

  function TriedBy(a: Attempt): (r: seq<Input>)
    requires ValidRegistry(a.g)
    ensures forall i | i in r :: Usable(i)
  {
    if Refusal(a.g, a.q, a.verified).None? then [InputOf(a.g, a.q)] else []
  }

  lemma TriedStep(attempts: seq<Attempt>)
    requires AllValid(attempts) && |attempts| > 0
    ensures Tried(attempts) == TriedBy(attempts[0]) + Tried(attempts[1..])
  {}

  lemma {:induction false} AllowedAreGranted(st: Store, attempts: seq<Attempt>)
    requires AllValid(attempts)
    ensures Allowed(st, attempts) == Granted(st, Tried(attempts))
    decreases |attempts|
  {
    hide Refusal, ReserveIn, ValidRegistry, InputOf;
    if |attempts| > 0 {
      var (a, rest) := (attempts[0], Tried(attempts[1..]));
      RefusalIsNoPermission(a.g, a.q, a.verified);
      AllowedAreGranted(Authorize(a.g, st, a.q, a.verified).0, attempts[1..]);
      if Refusal(a.g, a.q, a.verified).None? {
        assert Tried(attempts)[1..] == rest;
        GrantedStep(st, Tried(attempts));
      } else {
        assert Tried(attempts) == rest;
      }
    }
  }

  lemma {:induction false} TriedFrom(attempts: seq<Attempt>)
    requires AllValid(attempts)
    ensures forall i | i in Tried(attempts) :: exists a | a in attempts :: FromAttempt(a, i)
  {
    hide Refusal, ValidRegistry;
    if |attempts| > 0 {
      TriedFrom(attempts[1..]);
      forall i | i in Tried(attempts) ensures exists a | a in attempts :: FromAttempt(a, i) {
        if i in Tried(attempts[1..]) {
          var a :| a in attempts[1..] && FromAttempt(a, i);
          assert a in attempts;
        } else {
          assert attempts[0] in attempts && FromAttempt(attempts[0], i);
        }
      }
    }
  }

  predicate FromAttempt(a: Attempt, i: Input) {
    ValidRegistry(a.g) && i == InputOf(a.g, a.q) && Refusal(a.g, a.q, a.verified).None?
  }

  /** The text under which `authorize` joins a session's signer and policy. */
  function JoinedId(s: Session): Text {
    s.signerId + [COLON] + s.policyId
  }

  /** Every registered session whose joined ids are the bucket's is one for a policy of this frequency.  The
      sessions of the bucket's own signer and policy are; of others, only some whose ids hold a colon could
      fail to be. */
  predicate OneFrequency(g: Registry, b: Bucket, f: Frequency) {
    forall id | id in g.sessions :: JoinedId(g.sessions[id]) == Owner(b) ==> HasFrequency(g, g.sessions[id].policyId, f)
  }

  predicate HasFrequency(g: Registry, policyId: Text, f: Frequency) {
    policyId in g.policies ==> g.policies[policyId].frequency == Some(f)
  }

  /** In any run of authorisations, refused ones at any time included, a signer gets at most `maxOperations`
      requests and `maxTotalAmount` in all out of each aligned window of its policy, for any one contract
      and selector, as long as the requests it is allowed never come back to a window they have left, and
      every session registered under its joined ids, by whatever signer, has a policy of this frequency. */
  lemma AuthorizedWithinQuota(attempts: seq<Attempt>, b: Bucket, f: Frequency, w: int)
    requires ValidFrequency(f) && Aligned(w, f.windowSeconds) && WellFormed(b)
    requires AllValid(attempts) && forall a | a in attempts :: OneFrequency(a.g, b, f)
    requires NeverReentered(Allowed(Empty(), attempts), FrequencyKey(b), f.windowSeconds)
    ensures Number(Allowed(Empty(), attempts), FrequencyKey(b), w, w + f.windowSeconds) <= f.maxOperations
    ensures f.maxTotalAmount.Some? ==>
      Total(Allowed(Empty(), attempts), FrequencyKey(b), w, w + f.windowSeconds) <= f.maxTotalAmount.value
  {
    hide Allowed, Granted, Number, Total, Tried, FrequencyKey, Usable, Aligned, NeverReentered;
    AllowedAreGranted(Empty(), attempts);
    TriedFrom(attempts);
    var inputs := Tried(attempts);
    GrantedAreNew(Empty(), inputs);
    forall i | i in Granted(Empty(), inputs) && i.frequencyKey == FrequencyKey(b) ensures i.frequency == Some(f) {
      var a :| a in attempts && FromAttempt(a, i);
      PassedRequest(a);
      FrequencyKeyExactly(BucketOf(a.q), b);
      assert HasFrequency(a.g, a.g.sessions[a.q.sessionId].policyId, f);
    }
    WindowQuota(inputs, FrequencyKey(b), f, w);
  }

  /** When no signer with a session has a colon in its id, joined ids are never shared. */
  lemma PlainSignersShareNothing(g: Registry, b: Bucket, f: Frequency)
    requires b.policyId in g.policies && g.policies[b.policyId].frequency == Some(f)
    requires COLON !in b.signerId && forall id | id in g.sessions :: COLON !in g.sessions[id].signerId
    ensures OneFrequency(g, b, f)
  {
    forall id | id in g.sessions && JoinedId(g.sessions[id]) == Owner(b)
      ensures HasFrequency(g, g.sessions[id].policyId, f) {
      var s := g.sessions[id];
      FirstColonOfJoin(s.signerId, s.policyId);
      FirstColonOfJoin(b.signerId, b.policyId);
      assert JoinedId(s)[|s.signerId| + 1..] == s.policyId && Owner(b)[|b.signerId| + 1..] == b.policyId;
    }
  }

  /** A request that passes has a registered session for its signer and policy. */
  lemma PassedRequest(a: Attempt)
    requires Refusal(a.g, a.q, a.verified).None?
    ensures WellFormed(BucketOf(a.q)) && a.q.sessionId in a.g.sessions && a.q.policyId in a.g.policies
    ensures
      var session := a.g.sessions[a.q.sessionId];
      JoinedId(session) == Owner(BucketOf(a.q)) && session.policyId == a.q.policyId
  {
    hide StepUpRefusal, RuleRefusal, FindRule;
  }

  // ------------------------------------------------- two signers with one key

  /** The same request again and again, under ids of its own, at one time. */
  function Again(g: Registry, q: Request, ids: seq<Text>, t: int): (r: seq<Attempt>)
    ensures |r| == |ids| && forall a | a in r :: a.g == g
  {
    seq(|ids|, k requires 0 <= k < |ids| => Attempt(g, q.(requestId := ids[k], at := t), true))
  }

  /** It passes every check but the reservation, under each of the ids. */
  predicate Passes(g: Registry, q: Request, ids: seq<Text>, t: int) {
    forall id | id in ids :: Refusal(g, q.(requestId := id, at := t), true).None?
  }

  lemma {:induction false} TriedAgain(g: Registry, q: Request, ids: seq<Text>, t: int, f: Frequency)
    requires ValidRegistry(g) && ValidFrequency(f) && Passes(g, q, ids, t)
    requires q.policyId in g.policies && g.policies[q.policyId].frequency == Some(f)
    ensures Tried(Again(g, q, ids, t)) == Burst(FrequencyKey(BucketOf(q)), f, ids, q.amount, t)
    decreases |ids|
  {
    hide Refusal, ValidRegistry, FrequencyKey, BucketOf, ValidFrequency;
    if |ids| > 0 {
      var attempts, key := Again(g, q, ids, t), FrequencyKey(BucketOf(q));
      assert attempts[1..] == Again(g, q, ids[1..], t);
      TriedAgain(g, q, ids[1..], t, f);
      SameBucket(q, ids[0], t);
      var all := Burst(key, f, ids, q.amount, t);
      assert all == [all[0]] + Burst(key, f, ids[1..], q.amount, t);
    }
  }

  lemma SameBucket(q: Request, id: Text, t: int)
    ensures BucketOf(q.(requestId := id, at := t)) == BucketOf(q)
  {}

  lemma TriedNothing()
    ensures Tried([]) == []
  {}

  lemma {:induction false} TriedAppend(first: seq<Attempt>, second: seq<Attempt>)
    requires AllValid(first) && AllValid(second)
    ensures Tried(first + second) == Tried(first) + Tried(second)
  {
    hide TriedBy, ValidRegistry, Usable, Tried;
    if |first| == 0 {
      assert first + second == second && Tried(first) == [] by { TriedNothing(); }
    } else {
      var both, tail := first + second, first[1..];
      assert both[1..] == tail + second && both[0] == first[0];
      TriedAppend(tail, second);
      TriedStep(first);
      TriedStep(both);
      var x, y, z := TriedBy(first[0]), Tried(tail), Tried(second);
      assert x + (y + z) == (x + y) + z;
    }
  }

  /** All of a quota, one request of another signer, and all of the quota again. */
  function ThenAgain(g: Registry, q: Request, r: Request, n: nat, ids: seq<Text>, t0: int, t1: int, t2: int):
    (attempts: seq<Attempt>)
    requires |ids| == 2 * n + 1
    ensures |attempts| == |ids| && forall a | a in attempts :: a.g == g
  {
    Again(g, q, ids[..n], t0) + Again(g, r, ids[n..n + 1], t1) + Again(g, q, ids[n + 1..], t2)
  }

  /** The condition on joined ids is needed.  Wherever two signers with sessions share a frequency key, and
      the policy of the second has windows that start elsewhere, one request of the second gives the first
      its whole quota of the window again, at whatever times, rising ones included. */
  lemma SharedKeyBreaksQuota(g: Registry, q: Request, r: Request, f: Frequency, other: Frequency, ids: seq<Text>,
                             t0: int, t1: int, t2: int)
    requires ValidRegistry(g) && FrequencyKey(BucketOf(q)) == FrequencyKey(BucketOf(r)) && q.amount == r.amount
    requires q.policyId in g.policies && g.policies[q.policyId].frequency == Some(f)
    requires r.policyId in g.policies && g.policies[r.policyId].frequency == Some(other)
    requires ValidFrequency(f) && ValidFrequency(other) && |ids| == 2 * f.maxOperations + 1 && Fresh(ids, {})
    requires Fits(f, f.maxOperations, q.amount) && Fits(other, 1, q.amount)
    requires WindowOf(t0, f.windowSeconds) == WindowOf(t2, f.windowSeconds) != WindowOf(t1, other.windowSeconds)
    requires Passes(g, q, ids, t0) && Passes(g, r, ids, t1) && Passes(g, q, ids, t2)
    ensures
      var n := f.maxOperations;
      var allowed := Allowed(Empty(), ThenAgain(g, q, r, n, ids, t0, t1, t2));
      var w := WindowOf(t0, f.windowSeconds);
      && allowed == Twice(FrequencyKey(BucketOf(q)), f, other, ids, q.amount, t0, t1, t2)
      && Number(allowed[..n] + allowed[n + 1..], FrequencyKey(BucketOf(q)), w, w + f.windowSeconds) == n + n
  {
    hide Allowed, Granted, Tried, Refusal, ValidRegistry, FrequencyKey, BucketOf, Fresh, Fits, WindowOf, Number, Total,
      Usable;
    var (n, key, w) := (f.maxOperations, FrequencyKey(BucketOf(q)), WindowOf(t0, f.windowSeconds));
    var a, b, c := Again(g, q, ids[..n], t0), Again(g, r, ids[n..n + 1], t1), Again(g, q, ids[n + 1..], t2);
    TriedAgain(g, q, ids[..n], t0, f);
    TriedAgain(g, r, ids[n..n + 1], t1, other);
    TriedAgain(g, q, ids[n + 1..], t2, f);
    TriedAppend(a, b);
    TriedAppend(a + b, c);
    SharedKeyDoublesQuota(key, f, other, ids, q.amount, t0, t1, t2);
    AllowedAreGranted(Empty(), a + b + c);
    var (x, y) := (Burst(key, f, ids[..n], q.amount, t0), Burst(key, f, ids[n + 1..], q.amount, t2));
    var allowed := Allowed(Empty(), a + b + c);
    assert allowed[..n] == x && allowed[n + 1..] == y;
    Windowed(t0, f.windowSeconds);
    Windowed(t2, f.windowSeconds);
    BurstCounts(key, f, ids[..n], q.amount, t0, w, w + f.windowSeconds);
    BurstCounts(key, f, ids[n + 1..], q.amount, t2, w, w + f.windowSeconds);
    NumberAppend(x, y, key, w, w + f.windowSeconds);
  }

  const TEN_SECONDS := Frequency(10, 1, None)
  const SEVEN_SECONDS := Frequency(7, 1, None)

  /** A policy that allows one call, and the request for it. */
  function OneCall(signerId: Text, policyId: Text, target: Address, selector: Text, f: Frequency): Policy {
    Policy(policyId, signerId, 1, 0, 100, [Rule(target, [selector], None, None, None, None)], None, Some(f))
  }

  function CallOf(sessionId: Text, signerId: Text, policyId: Text, target: Address, selector: Text): Request {
    Request([1], sessionId, signerId, policyId, 1, target, selector, Transaction, 0, Native, None, 0, 0, None)
  }

  /** Signer a under policy `b:c`, and signer `a:b` under policy c. */
  function TwoSigners(a: Text, b: Text, c: Text, target: Address, selector: Text): Registry {
    var (first, second) := (b + [COLON] + c, a + [COLON] + b);
    Registry(
      map[first := OneCall(a, first, target, selector, TEN_SECONDS),
          c := OneCall(second, c, target, selector, SEVEN_SECONDS)],
      map[[1] := Session(a, first, 0, 100), [2] := Session(second, c, 0, 100)], {}, {})
  }

  lemma OneCallValid(signerId: Text, policyId: Text, target: Address, selector: Text, f: Frequency)
    requires |signerId| > 0 && |policyId| > 0 && ValidAddress(target) && ValidSelector(selector) && ValidFrequency(f)
    ensures ValidPolicy(OneCall(signerId, policyId, target, selector, f))
  {
    hide ValidAddress, ValidSelector, PairKey;
    var p := OneCall(signerId, policyId, target, selector, f);
    AllKeysStep(p.contracts, 0);
    NoKeys();
    assert p.contracts[..1] == p.contracts && p.contracts[..0] == [];
  }

  lemma CallPasses(g: Registry, sessionId: Text, signerId: Text, policyId: Text, target: Address, selector: Text,
                   f: Frequency, ids: seq<Text>, t: int)
    requires |sessionId| > 0 && |signerId| > 0 && |policyId| > 0 && ValidAddress(target) && ValidSelector(selector)
    requires 0 <= t < 100 && (forall id | id in ids :: |id| > 0) && g.revokedPolicies == {} && g.revokedSessions == {}
    requires sessionId in g.sessions && g.sessions[sessionId] == Session(signerId, policyId, 0, 100)
    requires policyId in g.policies && g.policies[policyId] == OneCall(signerId, policyId, target, selector, f)
    ensures Passes(g, CallOf(sessionId, signerId, policyId, target, selector), ids, t)
  {
    hide ValidAddress, ValidSelector, Lower;
    var rule := Rule(target, [selector], None, None, None, None);
    assert selector in rule.selectors;
    assert FindRule([rule], target) == Some(rule);
  }

  /** Such registries are there, whatever the three ids, with times 0, 8 and 9 and every other condition of
      the quota met: a's one request in ten seconds becomes two. */
  lemma JoinedIdsBreakQuota(a: Text, b: Text, c: Text, target: Address, selector: Text)
    returns (g: Registry, attempts: seq<Attempt>)
    requires |a| > 0 && |b| > 0 && |c| > 0 && ValidAddress(target) && ValidSelector(selector)
    ensures ValidRegistry(g) && forall id | id in g.policies :: ValidPolicy(g.policies[id])
    ensures forall k | k in attempts :: k.g == g
    ensures
      var own := Bucket(a, b + [COLON] + c, Lower(target), Lower(selector));
      && WellFormed(own) && own.policyId in g.policies && g.policies[own.policyId].frequency == Some(TEN_SECONDS)
      && NeverReentered(Allowed(Empty(), attempts), FrequencyKey(own), TEN_SECONDS.windowSeconds)
      && |attempts| == 3 && attempts[0].q.at == 0 && attempts[1].q.at == 8 && attempts[2].q.at == 9
      && attempts[0].q.signerId == attempts[2].q.signerId == a && attempts[1].q.signerId == a + [COLON] + b
      && Number(Allowed(Empty(), attempts), FrequencyKey(own), 0, 10) == 3
  {
    hide Allowed, FrequencyKey, ValidAddress, ValidSelector, Lower, ValidPolicy, WindowOf, NeverReentered, Refusal,
      TwoSigners, Fresh, Number, Again, ThenAgain, Burst, Twice, Passes, BucketOf, ValidRegistry, CallOf, Counts;
    var (first, second) := (b + [COLON] + c, a + [COLON] + b);
    g := TwoSigners(a, b, c, target, selector);
    TwoSignersAre(a, b, c, target, selector);
    var (q, r) := (CallOf([1], a, first, target, selector), CallOf([2], second, c, target, selector));
    var ids: seq<Text> := [[1], [2], [3]];
    ThreeFresh(ids);
    CallPasses(g, [1], a, first, target, selector, TEN_SECONDS, ids, 0);
    CallPasses(g, [2], second, c, target, selector, SEVEN_SECONDS, ids, 8);
    CallPasses(g, [1], a, first, target, selector, TEN_SECONDS, ids, 9);
    SharedBucket(a, b, c, target, selector);
    CallsAre(a, first, second, c, target, selector);
    Times();
    SharedKeyBreaksQuota(g, q, r, TEN_SECONDS, SEVEN_SECONDS, ids, 0, 8, 9);
    attempts := ThenAgain(g, q, r, 1, ids, 0, 8, 9);
    ThreeAttempts(g, q, r, ids, 0, 8, 9);
    var own := Bucket(a, first, Lower(target), Lower(selector));
    var allowed := Allowed(Empty(), attempts);
    ThreeInputs(FrequencyKey(own), ids, 0, 8, 9);
    RisingIsNeverReentered(allowed, FrequencyKey(own), 10);
    forall k | 0 <= k < |allowed| ensures Counts(allowed[k], FrequencyKey(own), 0, 10) {
      InTen(allowed[k], FrequencyKey(own));
    }
    AllCount(allowed, FrequencyKey(own), 0, 10);
  }

  lemma InTen(i: Input, key: Text)
    requires i.frequencyKey == key && 0 <= i.at < 10
    ensures Counts(i, key, 0, 10)
  {}

  lemma CallsAre(a: Text, first: Text, second: Text, c: Text, target: Address, selector: Text)
    ensures
      var (q, r) := (CallOf([1], a, first, target, selector), CallOf([2], second, c, target, selector));
      && q.signerId == a && r.signerId == second && q.policyId == first && r.policyId == c && q.amount == r.amount == 0
      && BucketOf(q) == Bucket(a, first, Lower(target), Lower(selector))
      && BucketOf(r) == Bucket(second, c, Lower(target), Lower(selector))
  {
    hide Lower;
  }

  lemma ThreeAttempts(g: Registry, q: Request, r: Request, ids: seq<Text>, t0: int, t1: int, t2: int)
    requires |ids| == 3
    ensures
      var attempts := ThenAgain(g, q, r, 1, ids, t0, t1, t2);
      && attempts[0].q == q.(requestId := ids[0], at := t0)
      && attempts[1].q == r.(requestId := ids[1], at := t1)
      && attempts[2].q == q.(requestId := ids[2], at := t2)
  {}

  lemma ThreeInputs(key: Text, ids: seq<Text>, t0: int, t1: int, t2: int)
    requires |ids| == 3
    ensures
      var inputs := Twice(key, TEN_SECONDS, SEVEN_SECONDS, ids, 0, t0, t1, t2);
      && |inputs| == 3 && inputs[0].at == t0 && inputs[1].at == t1 && inputs[2].at == t2
      && inputs[0].frequencyKey == inputs[1].frequencyKey == inputs[2].frequencyKey == key
  {}

  lemma {:induction false} AllCount(granted: seq<Input>, key: Text, lo: int, hi: int)
    requires forall k | 0 <= k < |granted| :: Counts(granted[k], key, lo, hi)
    ensures Number(granted, key, lo, hi) == |granted|
  {
    if |granted| > 0 {
      AllCount(granted[1..], key, lo, hi);
    }
  }

  lemma ThreeFresh(ids: seq<Text>)
    requires ids == [[1], [2], [3]]
    ensures Fresh(ids, {})
  {}

  lemma Times()
    ensures WindowOf(0, 10) == WindowOf(8, 10) == WindowOf(9, 10) == 0 && WindowOf(8, 7) == 7
  {}

  lemma TwoSignersAre(a: Text, b: Text, c: Text, target: Address, selector: Text)
    requires |a| > 0 && |b| > 0 && |c| > 0 && ValidAddress(target) && ValidSelector(selector)
    ensures
      var (g, first, second) := (TwoSigners(a, b, c, target, selector), b + [COLON] + c, a + [COLON] + b);
      && ValidRegistry(g) && (forall id | id in g.policies :: ValidPolicy(g.policies[id]))
      && g.revokedPolicies == {} && g.revokedSessions == {}
      && [1] in g.sessions && g.sessions[[1]] == Session(a, first, 0, 100)
      && [2] in g.sessions && g.sessions[[2]] == Session(second, c, 0, 100)
      && first in g.policies && g.policies[first] == OneCall(a, first, target, selector, TEN_SECONDS)
      && c in g.policies && g.policies[c] == OneCall(second, c, target, selector, SEVEN_SECONDS)
  {
    hide ValidAddress, ValidSelector, ValidPolicy;
    var (first, second) := (b + [COLON] + c, a + [COLON] + b);
    assert |first| > |c|;
    OneCallValid(a, first, target, selector, TEN_SECONDS);
    OneCallValid(second, c, target, selector, SEVEN_SECONDS);
  }

  lemma SharedBucket(a: Text, b: Text, c: Text, target: Address, selector: Text)
    requires ValidAddress(target) && ValidSelector(selector)
    ensures
      var (x, y) := (Bucket(a, b + [COLON] + c, Lower(target), Lower(selector)),
        Bucket(a + [COLON] + b, c, Lower(target), Lower(selector)));
      WellFormed(x) && FrequencyKey(x) == FrequencyKey(y)
  {
    assert a + [COLON] + (b + [COLON] + c) == a + [COLON] + b + [COLON] + c;
  }
}
