/** Presentation policies, their translation to DCQL and back, and the candidates a policy selects. */
module PresentationPolicy {
  import opened Strings
  import opened Wrappers
  import opened Json
  import opened Records

  const MAX_STRING_LENGTH := 256
  const MAX_ARRAY_ITEMS := 16
  const MAX_NESTING_DEPTH := 4

  /** A claim that must equal a string, number or boolean. */
  datatype Claim = Claim(path: seq<Text>, value: Json, requiredDisclosure: bool)

  datatype Query = Query(id: Text, vct: Text, claims: seq<Claim>)

  datatype Policy = Policy(id: Text, purpose: Text, credentials: seq<Query>)

  // ----------------------------------------------------------------- parsing
  // None is a thrown SchemaValidationError.

  predicate IsText(t: Text) {
    0 < |t| <= MAX_STRING_LENGTH
  }

  function ReadText(v: Json): Option<Text> {
    if v.String? && IsText(v.s) then Some(v.s) else None
  }

  predicate IsScalar(v: Json) {
    (v.String? && |v.s| <= MAX_STRING_LENGTH) || v.Number? || v.Bool?
  }

  function ReadScalar(v: Json): Option<Json> {
    if IsScalar(v) then Some(v) else None
  }

  function ReadList<T>(v: Json, max: nat, read: Json -> Option<T>): Option<seq<T>> {
    if v.Array? && 1 <= |v.items| <= max then ReadAll(v.items, read) else None
  }

  /** No field but these. */
  predicate Known(v: Json, names: seq<string>) {
    Shaped(v, [], names)
  }

  const POLICY_NAMES: seq<string> := ["schemaVersion", "id", "purpose", "credentials"]
  const QUERY_NAMES: seq<string> := ["id", "format", "vct", "claims"]
  const CLAIM_NAMES: seq<string> := ["path", "operator", "value", "requiredDisclosure"]

  /** The one supported format. */
  function Format(): Json {
    String(Ascii("dc+sd-jwt"))
  }

  function ParseClaim(v: Json): Option<Claim> {
    if !Known(v, CLAIM_NAMES) then None
    else if Field(v, "operator") != String(Ascii("equals")) || !Field(v, "requiredDisclosure").Bool? then None
    else
      var path :- ReadList(Field(v, "path"), MAX_NESTING_DEPTH, ReadText);
      var value :- ReadScalar(Field(v, "value"));
      Some(Claim(path, value, Field(v, "requiredDisclosure").b))
  }

  function ParseQuery(v: Json): Option<Query> {
    if !Known(v, QUERY_NAMES) || Field(v, "format") != Format() then None
    else
      var claims :- ReadList(Field(v, "claims"), MAX_ARRAY_ITEMS, ParseClaim);
      var id :- ReadText(Field(v, "id"));
      var vct :- ReadText(Field(v, "vct"));
      Some(Query(id, vct, claims))
  }

  function ParsePolicy(v: Json): Option<Policy> {
    if !Known(v, POLICY_NAMES) || Field(v, "schemaVersion") != Number(1) then None
    else
      var credentials :- ReadList(Field(v, "credentials"), MAX_ARRAY_ITEMS, ParseQuery);
      var id :- ReadText(Field(v, "id"));
      var purpose :- ReadText(Field(v, "purpose"));
      Some(Policy(id, purpose, credentials))
  }

  // ----------------------------------------------------------------- objects

  function TextJson(t: Text): Json {
    String(t)
  }

  function PathJson(path: seq<Text>): Json {
    Array(Map(path, TextJson))
  }

  function ClaimValues(c: Claim): (r: seq<Json>)
    ensures |r| == |CLAIM_NAMES|
  {
    [PathJson(c.path), String(Ascii("equals")), c.value, Bool(c.requiredDisclosure)]
  }

  function ClaimJson(c: Claim): Json {
    Record(CLAIM_NAMES, ClaimValues(c))
  }

  function QueryValues(q: Query): (r: seq<Json>)
    ensures |r| == |QUERY_NAMES|
  {
    [String(q.id), Format(), String(q.vct), Array(Map(q.claims, ClaimJson))]
  }

  function QueryJson(q: Query): Json {
    Record(QUERY_NAMES, QueryValues(q))
  }

  function PolicyValues(p: Policy): (r: seq<Json>)
    ensures |r| == |POLICY_NAMES|
  {
    [Number(1), String(p.id), String(p.purpose), Array(Map(p.credentials, QueryJson))]
  }

  function PolicyJson(p: Policy): Json {
    Record(POLICY_NAMES, PolicyValues(p))
  }

  // -------------------------------------------------------------------- DCQL

  const DCQL_NAMES: seq<string> := ["credentials"]
  const DCQL_QUERY_NAMES: seq<string> := ["id", "format", "meta", "claims"]
  const DCQL_CLAIM_NAMES: seq<string> := ["path", "values"]

  function DcqlClaim(c: Claim): Json {
    Record(DCQL_CLAIM_NAMES, [PathJson(c.path), Array([c.value])])
  }

  function Meta(vct: Text): Json {
    Object([Member(Ascii("vct_values"), Array([String(vct)]))])
  }

  function DcqlQuery(q: Query): Json {
    Record(DCQL_QUERY_NAMES, [String(q.id), Format(), Meta(q.vct), Array(Map(q.claims, DcqlClaim))])
  }

  function ToDcql(policy: Json): Option<Json> {
    var p :- ParsePolicy(policy);
    Some(Record(DCQL_NAMES, [Array(Map(p.credentials, DcqlQuery))]))
  }

  /** The only item of a one-item array. */
  function Single(v: Json): Option<Json> {
    if v.Array? && |v.items| == 1 then Some(v.items[0]) else None
  }

  function ReadDcqlClaim(v: Json): Option<Claim> {
    if !Known(v, DCQL_CLAIM_NAMES) then None
    else
      var item :- Single(Field(v, "values"));
      var path :- ReadList(Field(v, "path"), MAX_NESTING_DEPTH, ReadText);
      var value :- ReadScalar(item);
      Some(Claim(path, value, true))
  }

  function ReadMeta(v: Json): Option<Text> {
    if !v.Object? || (exists m | m in v.members :: m.key != Ascii("vct_values")) then None
    else
      var item :- Single(Get(v.members, Ascii("vct_values")));
      ReadText(item)
  }

  function ReadDcqlQuery(v: Json): Option<Query> {
    if !Known(v, DCQL_QUERY_NAMES) || Field(v, "format") != Format() then None
    else
      var vct :- ReadMeta(Field(v, "meta"));
      var claims :- ReadList(Field(v, "claims"), MAX_ARRAY_ITEMS, ReadDcqlClaim);
      var id :- ReadText(Field(v, "id"));
      Some(Query(id, vct, claims))
  }

  function FromDcql(v: Json, purpose: Text): Option<Policy> {
    if !Known(v, DCQL_NAMES) then None
    else
      var credentials :- ReadList(Field(v, "credentials"), MAX_ARRAY_ITEMS, ReadDcqlQuery);
      ParsePolicy(PolicyJson(Policy(Ascii("dcql-policy"), purpose, credentials)))
  }

  // --------------------------------------------------------------- selection

  datatype Candidate = Candidate(id: Text, format: Text, vct: Text, claims: Json, disclosures: seq<Text>)

  /** Following a claim path from object to object. */
  function Walk(current: Json, path: seq<Text>): Option<Json>
    decreases |path|
  {
    if |path| == 0 then Some(current)
    else if !current.Object? || !HasKey(current.members, path[0]) then None
    else Walk(Get(current.members, path[0]), path[1..])
  }

  predicate Meets(c: Candidate, claim: Claim) {
    Walk(c.claims, claim.path) == Some(claim.value)
  }

  predicate Satisfies(c: Candidate, q: Query, approved: Option<seq<Text>>) {
    && String(c.format) == Format() && c.vct == q.vct && c.id == q.id
    && (approved.Some? ==> c.id in approved.value)
    && forall claim | claim in q.claims :: Meets(c, claim)
  }

  function Filtered(candidates: seq<Candidate>, q: Query, approved: Option<seq<Text>>): seq<Candidate> {
    if |candidates| == 0 then []
    else (if Satisfies(candidates[0], q, approved) then [candidates[0]]
      else []) + Filtered(candidates[1..], q, approved)
  }

  function SelectAll(queries: seq<Query>, candidates: seq<Candidate>, approved: Option<seq<Text>>): seq<Candidate> {
    if |queries| == 0 then []
    else Filtered(candidates, queries[0], approved) + SelectAll(queries[1..], candidates, approved)
  }

  /** `selectPresentationCandidates`. */
  function Select(policy: Json, candidates: seq<Candidate>, approved: Option<seq<Text>>): Option<seq<Candidate>> {
    var p :- ParsePolicy(policy);
    Some(SelectAll(p.credentials, candidates, approved))
  }

  // ---------------------------------------------------------------- validity

  predicate ValidClaim(c: Claim) {
    1 <= |c.path| <= MAX_NESTING_DEPTH && (forall t | t in c.path :: IsText(t)) && IsScalar(c.value)
  }

  predicate ValidQuery(q: Query) {
    IsText(q.id) && IsText(q.vct) && 1 <= |q.claims| <= MAX_ARRAY_ITEMS && forall c | c in q.claims :: ValidClaim(c)
  }

  predicate ValidPolicy(p: Policy) {
    && IsText(p.id) && IsText(p.purpose)
    && 1 <= |p.credentials| <= MAX_ARRAY_ITEMS && forall q | q in p.credentials :: ValidQuery(q)
  }

  lemma PolicyNames()
    ensures FieldNames(POLICY_NAMES)
  {}

  lemma QueryNames()
    ensures FieldNames(QUERY_NAMES)
  {}

  lemma ClaimNames()
    ensures FieldNames(CLAIM_NAMES)
  {}

  lemma DcqlNames()
    ensures FieldNames(DCQL_NAMES)
  {}

  lemma DcqlQueryNames()
    ensures FieldNames(DCQL_QUERY_NAMES)
  {}

  lemma DcqlClaimNames()
    ensures FieldNames(DCQL_CLAIM_NAMES)
  {}

  lemma KnownRecord(names: seq<string>, values: seq<Json>)
    requires |names| == |values| && FieldNames(names)
    ensures Known(Record(names, values), names)
    ensures forall i | 0 <= i < |names| :: Field(Record(names, values), names[i]) == values[i]
  {
    RecordShape(names, values);
    assert [] + names == names && names + [] == names;
  }

  lemma ReadListBuilt<T>(xs: seq<T>, max: nat, write: T -> Json, read: Json -> Option<T>, valid: T -> bool)
    requires forall x | x in xs :: read(write(x)) == if valid(x) then Some(x) else None
    ensures ReadList(Array(Map(xs, write)), max, read)
         == if 1 <= |xs| <= max && forall x | x in xs :: valid(x) then Some(xs) else None
  {
    ReadAllBuilt(xs, write, read, valid);
  }

  lemma ReadListMapped<T, U>(xs: seq<T>, max: nat, write: T -> Json, read: Json -> Option<U>, change: T -> U)
    requires 1 <= |xs| <= max && forall x | x in xs :: read(write(x)) == Some(change(x))
    ensures ReadList(Array(Map(xs, write)), max, read) == Some(Map(xs, change))
  {
    ReadAllMapped(xs, write, read, change);
  }

  lemma ReadListGives<T>(v: Json, max: nat, read: Json -> Option<T>, valid: T -> bool)
    requires forall item :: read(item).Some? ==> valid(read(item).value)
    ensures ReadList(v, max, read).Some? ==>
      1 <= |ReadList(v, max, read).value| <= max && forall x | x in ReadList(v, max, read).value :: valid(x)
  {
    if ReadList(v, max, read).Some? {
      ReadAllGives(v.items, read, valid);
      ReadAllLength(v.items, read);
    }
  }

  lemma PathRead(path: seq<Text>)
    ensures ReadList(PathJson(path), MAX_NESTING_DEPTH, ReadText)
         == if 1 <= |path| <= MAX_NESTING_DEPTH && forall t | t in path :: IsText(t) then Some(path) else None
  {
    ReadListBuilt(path, MAX_NESTING_DEPTH, TextJson, ReadText, IsText);
  }

  lemma ClaimRoundTrip(c: Claim)
    ensures ParseClaim(ClaimJson(c)) == if ValidClaim(c) then Some(c) else None
  {
    hide Field, Record, Known, ReadList, PathJson, IsText;
    ClaimNames();
    var (v, values) := (ClaimJson(c), ClaimValues(c));
    KnownRecord(CLAIM_NAMES, values);
    assert Field(v, CLAIM_NAMES[0]) == values[0] && Field(v, CLAIM_NAMES[1]) == values[1];
    assert Field(v, CLAIM_NAMES[2]) == values[2] && Field(v, CLAIM_NAMES[3]) == values[3];
    PathRead(c.path);
  }

  lemma QueryRoundTrip(q: Query)
    ensures ParseQuery(QueryJson(q)) == if ValidQuery(q) then Some(q) else None
  {
    hide Field, Record, Known, ReadList, ParseClaim, ClaimJson, ValidClaim, Map, IsText;
    QueryNames();
    var (v, values) := (QueryJson(q), QueryValues(q));
    KnownRecord(QUERY_NAMES, values);
    assert Field(v, QUERY_NAMES[0]) == values[0] && Field(v, QUERY_NAMES[1]) == values[1];
    assert Field(v, QUERY_NAMES[2]) == values[2] && Field(v, QUERY_NAMES[3]) == values[3];
    forall c | c in q.claims ensures ParseClaim(ClaimJson(c)) == if ValidClaim(c) then Some(c) else None {
      ClaimRoundTrip(c);
    }
    ReadListBuilt(q.claims, MAX_ARRAY_ITEMS, ClaimJson, ParseClaim, ValidClaim);
  }

  /** The parser accepts the object of a policy exactly when the policy is valid. */
  lemma PolicyRoundTrip(p: Policy)
    ensures ParsePolicy(PolicyJson(p)) == if ValidPolicy(p) then Some(p) else None
  {
    hide Field, Record, Known, ReadList, ParseQuery, QueryJson, ValidQuery, Map, IsText;
    PolicyNames();
    var (v, values) := (PolicyJson(p), PolicyValues(p));
    KnownRecord(POLICY_NAMES, values);
    assert Field(v, POLICY_NAMES[0]) == values[0] && Field(v, POLICY_NAMES[1]) == values[1];
    assert Field(v, POLICY_NAMES[2]) == values[2] && Field(v, POLICY_NAMES[3]) == values[3];
    forall q | q in p.credentials ensures ParseQuery(QueryJson(q)) == if ValidQuery(q) then Some(q) else None {
      QueryRoundTrip(q);
    }
    ReadListBuilt(p.credentials, MAX_ARRAY_ITEMS, QueryJson, ParseQuery, ValidQuery);
  }

  lemma ParsedClaimValid(v: Json)
    ensures ParseClaim(v).Some? ==> ValidClaim(ParseClaim(v).value)
  {
    hide Field, Known, ReadList, IsText;
    forall item ensures ReadText(item).Some? ==> IsText(ReadText(item).value) {
      TextRead(item);
    }
    ReadListGives(Field(v, "path"), MAX_NESTING_DEPTH, ReadText, IsText);
  }

  lemma TextRead(v: Json)
    ensures ReadText(v).Some? ==> IsText(ReadText(v).value)
  {}

  lemma ParsedQueryValid(v: Json)
    ensures ParseQuery(v).Some? ==> ValidQuery(ParseQuery(v).value)
  {
    hide Field, Known, ReadList, ParseClaim, ValidClaim, IsText;
    forall item ensures ParseClaim(item).Some? ==> ValidClaim(ParseClaim(item).value) {
      ParsedClaimValid(item);
    }
    ReadListGives(Field(v, "claims"), MAX_ARRAY_ITEMS, ParseClaim, ValidClaim);
  }

  lemma ParsedPolicyValid(v: Json)
    ensures ParsePolicy(v).Some? ==> ValidPolicy(ParsePolicy(v).value)
  {
    hide Field, Known, ReadList, ParseQuery, ValidQuery, IsText;
    forall item ensures ParseQuery(item).Some? ==> ValidQuery(ParseQuery(item).value) {
      ParsedQueryValid(item);
    }
    ReadListGives(Field(v, "credentials"), MAX_ARRAY_ITEMS, ParseQuery, ValidQuery);
  }

  // ------------------------------------------------------- there and back again

  /** What DCQL cannot say: a claim is always disclosed. */
  function Disclosed(c: Claim): Claim {
    c.(requiredDisclosure := true)
  }

  function DisclosedQuery(q: Query): Query {
    q.(claims := Map(q.claims, Disclosed))
  }

  lemma DcqlClaimRead(c: Claim)
    requires ValidClaim(c)
    ensures ReadDcqlClaim(DcqlClaim(c)) == Some(Disclosed(c))
  {
    hide Field, Record, Known, ReadList, PathJson, IsText;
    DcqlClaimNames();
    var values := [PathJson(c.path), Array([c.value])];
    KnownRecord(DCQL_CLAIM_NAMES, values);
    assert Field(DcqlClaim(c), DCQL_CLAIM_NAMES[0]) == values[0]
      && Field(DcqlClaim(c), DCQL_CLAIM_NAMES[1]) == values[1];
    PathRead(c.path);
  }

  lemma MetaRead(vct: Text)
    requires IsText(vct)
    ensures ReadMeta(Meta(vct)) == Some(vct)
  {}

  lemma DcqlQueryRead(q: Query)
    requires ValidQuery(q)
    ensures ReadDcqlQuery(DcqlQuery(q)) == Some(DisclosedQuery(q))
  {
    hide Field, Record, Known, ReadList, ReadDcqlClaim, DcqlClaim, ValidClaim, Map, IsText, Meta, ReadMeta;
    DcqlQueryNames();
    var v := DcqlQuery(q);
    var values := [String(q.id), Format(), Meta(q.vct), Array(Map(q.claims, DcqlClaim))];
    KnownRecord(DCQL_QUERY_NAMES, values);
    assert Field(v, DCQL_QUERY_NAMES[0]) == values[0] && Field(v, DCQL_QUERY_NAMES[1]) == values[1];
    assert Field(v, DCQL_QUERY_NAMES[2]) == values[2] && Field(v, DCQL_QUERY_NAMES[3]) == values[3];
    MetaRead(q.vct);
    forall c | c in q.claims ensures ReadDcqlClaim(DcqlClaim(c)) == Some(Disclosed(c)) {
      DcqlClaimRead(c);
    }
    ReadListMapped(q.claims, MAX_ARRAY_ITEMS, DcqlClaim, ReadDcqlClaim, Disclosed);
  }

  lemma DisclosedValid(q: Query)
    requires ValidQuery(q)
    ensures ValidQuery(DisclosedQuery(q))
  {
    hide IsText, IsScalar;
    forall c | c in DisclosedQuery(q).claims ensures ValidClaim(c) {
      var i :| 0 <= i < |q.claims| && c == Disclosed(q.claims[i]);
      assert q.claims[i] in q.claims;
    }
  }

  function Translated(p: Policy, purpose: Text): Policy {
    Policy(Ascii("dcql-policy"), purpose, Map(p.credentials, DisclosedQuery))
  }

  /** Translating a valid policy to DCQL and back keeps every query and claim; only the name, the
      purpose and optional disclosure are lost. */
  lemma DcqlRoundTrip(policy: Json, purpose: Text)
    requires ParsePolicy(policy).Some? && IsText(purpose)
    ensures ToDcql(policy).Some?
    ensures FromDcql(ToDcql(policy).value, purpose) == Some(Translated(ParsePolicy(policy).value, purpose))
  {
    hide Field, Record, Known, ReadList, ReadDcqlQuery, DcqlQuery, ValidQuery, Map, IsText, ParsePolicy, DisclosedQuery;
    var p := ParsePolicy(policy).value;
    ParsedPolicyValid(policy);
    DcqlNames();
    var values := [Array(Map(p.credentials, DcqlQuery))];
    KnownRecord(DCQL_NAMES, values);
    assert Field(ToDcql(policy).value, DCQL_NAMES[0]) == values[0];
    forall q | q in p.credentials ensures ReadDcqlQuery(DcqlQuery(q)) == Some(DisclosedQuery(q)) {
      DcqlQueryRead(q);
    }
    ReadListMapped(p.credentials, MAX_ARRAY_ITEMS, DcqlQuery, ReadDcqlQuery, DisclosedQuery);
    PolicyRoundTrip(Translated(p, purpose));
    TranslatedValid(p, purpose);
  }

  lemma TranslatedValid(p: Policy, purpose: Text)
    requires ValidPolicy(p) && IsText(purpose)
    ensures ValidPolicy(Translated(p, purpose))
  {
    hide ValidQuery, DisclosedQuery;
    assert |Ascii("dcql-policy")| == 11;
    forall q | q in Translated(p, purpose).credentials ensures ValidQuery(q) {
      var i :| 0 <= i < |p.credentials| && q == DisclosedQuery(p.credentials[i]);
      assert p.credentials[i] in p.credentials;
      DisclosedValid(p.credentials[i]);
    }
  }

  /** A second translation changes nothing. */
  lemma SecondTranslationSame(policy: Json, purpose: Text)
    requires ParsePolicy(policy).Some? && IsText(purpose)
    ensures
      var p := FromDcql(ToDcql(policy).value, purpose);
      && p.Some?
      && ToDcql(PolicyJson(p.value)) == ToDcql(policy)
      && FromDcql(ToDcql(PolicyJson(p.value)).value, purpose) == p
  {
    hide Record, FromDcql, ParsePolicy, DcqlQuery, ValidPolicy, IsText, PolicyJson;
    DcqlRoundTrip(policy, purpose);
    ParsedPolicyValid(policy);
    var p := ParsePolicy(policy).value;
    var t := Translated(p, purpose);
    TranslatedValid(p, purpose);
    PolicyRoundTrip(t);
    forall q | q in p.credentials ensures DcqlQuery(DisclosedQuery(q)) == DcqlQuery(q) {
      SameDcqlQuery(q);
    }
    assert Map(t.credentials, DcqlQuery) == Map(p.credentials, DcqlQuery) by {
      forall i | 0 <= i < |p.credentials| ensures DcqlQuery(t.credentials[i]) == DcqlQuery(p.credentials[i]) {
        assert p.credentials[i] in p.credentials;
      }
    }
  }

  lemma SameDcqlQuery(q: Query)
    ensures DcqlQuery(DisclosedQuery(q)) == DcqlQuery(q)
  {
    assert Map(DisclosedQuery(q).claims, DcqlClaim) == Map(q.claims, DcqlClaim);
  }

  // ------------------------------------------------------------ same selection

  lemma SameMeets(c: Candidate, q: Query, approved: Option<seq<Text>>)
    ensures Satisfies(c, DisclosedQuery(q), approved) <==> Satisfies(c, q, approved)
  {
    hide Format, Walk;
    var d := DisclosedQuery(q).claims;
    forall i | 0 <= i < |q.claims| ensures Meets(c, d[i]) <==> Meets(c, q.claims[i]) {
      assert d[i] == Disclosed(q.claims[i]);
    }
    assert (forall claim | claim in d :: Meets(c, claim)) <==> forall i | 0 <= i < |d| :: Meets(c, d[i]);
    assert (forall claim | claim in q.claims :: Meets(c, claim)) <==> forall i | 0 <= i < |q.claims| ::
      Meets(c, q.claims[i]);
  }

  lemma {:induction false} SameFiltered(candidates: seq<Candidate>, q: Query, approved: Option<seq<Text>>)
    ensures Filtered(candidates, DisclosedQuery(q), approved) == Filtered(candidates, q, approved)
  {
    hide Satisfies, DisclosedQuery;
    if |candidates| > 0 {
      SameMeets(candidates[0], q, approved);
      SameFiltered(candidates[1..], q, approved);
    }
  }

  lemma {:induction false} SameSelection(queries: seq<Query>, candidates: seq<Candidate>, approved: Option<seq<Text>>)
    ensures SelectAll(Map(queries, DisclosedQuery), candidates, approved) == SelectAll(queries, candidates, approved)
  {
    hide Filtered, DisclosedQuery;
    if |queries| > 0 {
      assert Map(queries, DisclosedQuery)[1..] == Map(queries[1..], DisclosedQuery);
      SameFiltered(candidates, queries[0], approved);
      SameSelection(queries[1..], candidates, approved);
    }
  }

  /** The translation preserves meaning: for every valid policy, candidate list and set of approved ids,
      the translated policy selects the same candidates in the same order. */
  lemma TranslationKeepsSelection(policy: Json, purpose: Text, candidates: seq<Candidate>, approved: Option<seq<Text>>)
    requires ParsePolicy(policy).Some? && IsText(purpose)
    ensures FromDcql(ToDcql(policy).value, purpose).Some?
    ensures Select(PolicyJson(FromDcql(ToDcql(policy).value, purpose).value), candidates, approved)
         == Select(policy, candidates, approved)
  {
    hide FromDcql, ParsePolicy, ToDcql, ValidPolicy, SelectAll, PolicyJson;
    DcqlRoundTrip(policy, purpose);
    ParsedPolicyValid(policy);
    var p := ParsePolicy(policy).value;
    TranslatedValid(p, purpose);
    PolicyRoundTrip(Translated(p, purpose));
    SameSelection(p.credentials, candidates, approved);
  }

  lemma {:induction false} FilteredExactly(candidates: seq<Candidate>, q: Query, approved: Option<seq<Text>>,
                                           c: Candidate)
    ensures c in Filtered(candidates, q, approved) <==> c in candidates && Satisfies(c, q, approved)
  {
    hide Satisfies;
    if |candidates| > 0 {
      FilteredExactly(candidates[1..], q, approved, c);
    }
  }

  /** Selected are exactly the candidates that some query asks for and whose every claim holds. */
  lemma {:induction false} SelectedExactly(queries: seq<Query>, candidates: seq<Candidate>, approved: Option<seq<Text>>,
                                           c: Candidate)
    ensures c in SelectAll(queries, candidates, approved)
      <==> c in candidates && exists q | q in queries :: Satisfies(c, q, approved)
  {
    hide Satisfies, Filtered;
    if |queries| > 0 {
      FilteredExactly(candidates, queries[0], approved, c);
      SelectedExactly(queries[1..], candidates, approved, c);
      assert forall q :: q in queries <==> q == queries[0] || q in queries[1..];
    }
  }

  /** A chain of objects along the path, from the claims to the value asked for: each holds the next one as its
      first member of that name. */
  ghost predicate Leads(chain: seq<Json>, path: seq<Text>) {
    && |chain| == |path| + 1
    && forall k | 0 <= k < |path| :: chain[k].Object? && FirstMember(chain[k].members, path[k], chain[k + 1])
  }

  /** The claims hold this value at this path. */
  ghost predicate HoldsAt(claims: Json, path: seq<Text>, value: Json) {
    exists chain | |chain| > 0 && chain[0] == claims && chain[|chain| - 1] == value :: Leads(chain, path)
  }

  lemma {:induction false} WalkExactly(claims: Json, path: seq<Text>, value: Json)
    ensures Walk(claims, path) == Some(value) <==> HoldsAt(claims, path, value)
    decreases |path|
  {
    hide FirstMember;
    if |path| == 0 {
      if Walk(claims, path) == Some(value) {
        assert Leads([claims], path);
      }
    } else {
      if claims.Object? {
        GetFirst(claims.members, path[0]);
        if HasKey(claims.members, path[0]) {
          WalkExactly(Get(claims.members, path[0]), path[1..], value);
        }
      }
      if Walk(claims, path) == Some(value) {
        var rest: seq<Json> :|
          |rest| > 0 && rest[0] == Get(claims.members, path[0]) && rest[|rest| - 1] == value && Leads(rest, path[1..]);
        OneLonger(claims, rest, path);
      }
      if chain: seq<Json> :| |chain| > 0 && chain[0] == claims && chain[|chain| - 1] == value && Leads(chain, path) {
        OneShorter(chain, path);
        assert FirstMember(claims.members, path[0], chain[1]);
        assert chain[1..][0] == chain[1] && chain[1..][|chain| - 2] == value;
      }
    }
  }

  lemma OneLonger(claims: Json, rest: seq<Json>, path: seq<Text>)
    requires |path| > 0 && Leads(rest, path[1..]) && claims.Object? && FirstMember(claims.members, path[0], rest[0])
    ensures Leads([claims] + rest, path)
  {
    hide FirstMember;
    var chain := [claims] + rest;
    forall k | 0 <= k < |path| ensures chain[k].Object? && FirstMember(chain[k].members, path[k], chain[k + 1]) {
      if k > 0 {
        assert chain[k] == rest[k - 1] && chain[k + 1] == rest[k] && path[k] == path[1..][k - 1];
      }
    }
  }

  lemma OneShorter(chain: seq<Json>, path: seq<Text>)
    requires |path| > 0 && Leads(chain, path)
    ensures Leads(chain[1..], path[1..])
  {
    hide FirstMember;
    var (rest, tail) := (chain[1..], path[1..]);
    forall k | 0 <= k < |tail| ensures rest[k].Object? && FirstMember(rest[k].members, tail[k], rest[k + 1]) {
      assert rest[k] == chain[k + 1] && rest[k + 1] == chain[k + 2] && tail[k] == path[k + 1];
    }
  }

  /** What a query asks of a candidate. */
  ghost predicate Answers(c: Candidate, q: Query, approved: Option<seq<Text>>) {
    && c.id == q.id && c.vct == q.vct && c.format == Ascii("dc+sd-jwt")
    && (approved.Some? ==> c.id in approved.value)
    && forall claim | claim in q.claims :: HoldsAt(c.claims, claim.path, claim.value)
  }

  lemma AnswersExactly(c: Candidate, q: Query, approved: Option<seq<Text>>)
    ensures Satisfies(c, q, approved) <==> Answers(c, q, approved)
  {
    hide HoldsAt, Walk, Ascii;
    forall claim | claim in q.claims ensures Meets(c, claim) <==> HoldsAt(c.claims, claim.path, claim.value) {
      WalkExactly(c.claims, claim.path, claim.value);
    }
  }

  /** Selected are exactly the candidates that are there, are approved, and have the id, the type, the format
      and at every claim's path the value that some query asks for. */
  lemma CandidatesExactly(queries: seq<Query>, candidates: seq<Candidate>, approved: Option<seq<Text>>, c: Candidate)
    ensures c in SelectAll(queries, candidates, approved)
      <==> c in candidates && exists q | q in queries :: Answers(c, q, approved)
  {
    hide Satisfies, Answers, SelectAll;
    SelectedExactly(queries, candidates, approved, c);
    forall q | q in queries ensures Satisfies(c, q, approved) <==> Answers(c, q, approved) {
      AnswersExactly(c, q, approved);
    }
  }

  /** The candidates at these positions, in this order. */
  predicate PickedAt(picked: seq<Candidate>, positions: seq<nat>, candidates: seq<Candidate>) {
    && |picked| == |positions|
    && forall k | 0 <= k < |picked| :: positions[k] < |candidates| && picked[k] == candidates[positions[k]]
  }

  predicate Rising(positions: seq<nat>) {
    forall j, k | 0 <= j < k < |positions| :: positions[j] < positions[k]
  }

  /** For one query they are the answering ones, in the order of the candidates, each as often as it is there. */
  lemma {:induction false} OneQueryInOrder(candidates: seq<Candidate>, q: Query, approved: Option<seq<Text>>)
    returns (positions: seq<nat>)
    ensures PickedAt(SelectAll([q], candidates, approved), positions, candidates) && Rising(positions)
    ensures forall n: nat | n < |candidates| :: n in positions <==> Answers(candidates[n], q, approved)
    decreases |candidates|
  {
    hide Satisfies, Answers, Filtered, PickedAt, Rising;
    OneQuery(candidates, q, approved);
    FilteredStep(candidates, q, approved);
    if |candidates| == 0 {
      positions := [];
      NothingPicked(candidates);
    } else {
      var c, tail := candidates[0], candidates[1..];
      OneQuery(tail, q, approved);
      AnswersExactly(c, q, approved);
      var later := OneQueryInOrder(tail, q, approved);
      var hit := Satisfies(c, q, approved);
      positions := (if hit then [0] else []) + Shifted(later);
      ShiftedPicks(hit, Filtered(tail, q, approved), later, candidates);
      forall n: nat | n < |candidates| ensures n in positions <==> Answers(candidates[n], q, approved) {
        ShiftedHits(hit, later, n);
        assert n > 0 ==> candidates[n] == tail[n - 1];
      }
    }
  }

  function Shifted(positions: seq<nat>): (r: seq<nat>)
    ensures |r| == |positions| && forall k | 0 <= k < |r| :: r[k] == positions[k] + 1
  {
    seq(|positions|, k requires 0 <= k < |positions| => positions[k] + 1)
  }

  lemma NothingPicked(candidates: seq<Candidate>)
    ensures PickedAt([], [], candidates) && Rising([])
  {}

  lemma ShiftedPicks(hit: bool, picked: seq<Candidate>, later: seq<nat>, candidates: seq<Candidate>)
    requires |candidates| > 0 && PickedAt(picked, later, candidates[1..]) && Rising(later)
    ensures PickedAt((if hit then [candidates[0]] else []) + picked, (if hit then [0] else []) + Shifted(later),
      candidates)
    ensures Rising((if hit then [0] else []) + Shifted(later))
  {
    forall k | 0 <= k < |later| ensures candidates[1..][later[k]] == candidates[later[k] + 1] {}
  }

  lemma ShiftedHits(hit: bool, later: seq<nat>, n: nat)
    ensures n in (if hit then [0] else []) + Shifted(later) <==> (n == 0 && hit) || (n > 0 && n - 1 in later)
  {
    if n > 0 && n - 1 in later {
      var k :| 0 <= k < |later| && later[k] == n - 1;
      assert Shifted(later)[k] == n;
    }
  }

  lemma OneQuery(candidates: seq<Candidate>, q: Query, approved: Option<seq<Text>>)
    ensures SelectAll([q], candidates, approved) == Filtered(candidates, q, approved)
  {
    hide Filtered;
    assert [q][1..] == [];
  }

  lemma FilteredStep(candidates: seq<Candidate>, q: Query, approved: Option<seq<Text>>)
    ensures Filtered(candidates, q, approved) ==
      if |candidates| == 0 then []
      else (if Satisfies(candidates[0], q, approved) then [candidates[0]]
        else []) + Filtered(candidates[1..], q, approved)
  {}

  /** And the queries follow each other. */
  lemma {:induction false} QueryByQuery(first: seq<Query>, second: seq<Query>, candidates: seq<Candidate>,
                                        approved: Option<seq<Text>>)
    ensures SelectAll(first + second, candidates, approved)
         == SelectAll(first, candidates, approved) + SelectAll(second, candidates, approved)
  {
    hide Filtered;
    if |first| == 0 {
      assert first + second == second;
    } else {
      assert (first + second)[1..] == first[1..] + second;
      QueryByQuery(first[1..], second, candidates, approved);
    }
  }
}
