/** Exactly which objects are read as presentation policies and as DCQL queries, and as which. */
module PresentationChecks {
  import opened Strings
  import opened Wrappers
  import opened Json
  import opened Records
  import opened PresentationPolicy

  /** A text of 1 to 256 code units. */
  predicate ShortText(v: Json, t: Text) {
    v == String(t) && 1 <= |t| && |t| <= 256
  }

  /** A path of 1 to 4 names. */
  predicate IsPath(v: Json, path: seq<Text>) {
    && v.Array? && 1 <= |v.items| && |v.items| <= 4 && |path| == |v.items|
    && forall i | 0 <= i < |path| :: ShortText(v.items[i], path[i])
  }

  /** A number, a truth value, or a text of at most 256 code units. */
  predicate IsBoundedScalar(v: Json) {
    match v case Number(_) => true case Bool(_) => true case String(s) => |s| <= 256 case _ => false
  }

  lemma ReadTextExactly(v: Json, t: Text)
    ensures ReadText(v) == Some(t) <==> ShortText(v, t)
  {}

  lemma PathExactly(v: Json, path: seq<Text>)
    ensures ReadList(v, MAX_NESTING_DEPTH, ReadText) == Some(path) <==> IsPath(v, path)
  {
    if v.Array? {
      ReadAllExactly(v.items, ReadText, path);
      forall i | 0 <= i < |v.items| && |path| == |v.items|
        ensures ReadText(v.items[i]) == Some(path[i]) <==> ShortText(v.items[i], path[i]) {
        ReadTextExactly(v.items[i], path[i]);
      }
    }
  }

  lemma ScalarExactly(v: Json, value: Json)
    ensures ReadScalar(v) == Some(value) <==> v == value && IsBoundedScalar(v)
  {}

  // ---------------------------------------------------------------- policies

  predicate IsClaim(v: Json, c: Claim) {
    && OnlyNamed(v, ["path", "operator", "value", "requiredDisclosure"])
    && Field(v, "operator") == String(Ascii("equals")) && Field(v, "requiredDisclosure") == Bool(c.requiredDisclosure)
    && IsPath(Field(v, "path"), c.path) && Field(v, "value") == c.value && IsBoundedScalar(c.value)
  }

  lemma ClaimExactly(v: Json, c: Claim)
    ensures ParseClaim(v) == Some(c) <==> IsClaim(v, c)
  {
    hide Field, ReadList, ReadScalar, IsBoundedScalar, IsPath, Keys, Ascii, OnlyNamed;
    OnlyNamedExactly(v, ["path", "operator", "value", "requiredDisclosure"]);
    KnownExactly(v, CLAIM_NAMES);
    PathExactly(Field(v, "path"), c.path);
    ScalarExactly(Field(v, "value"), c.value);
  }

  lemma KnownExactly(v: Json, names: seq<string>)
    ensures Known(v, names) <==> OnlyNamed(v, names)
  {
    hide Keys, OnlyNamed;
    OnlyNamedExactly(v, names);
    var none: seq<string> := [];
    assert none + names == names;
    assert v.Object? ==> (ExactKeys(v.members, [], names) <==> forall m | m in v.members :: m.key in Keys(names));
    assert !v.Object? ==> !OnlyNamed(v, names) by { OnlyObjects(v, names); }
  }

  lemma OnlyObjects(v: Json, names: seq<string>)
    ensures OnlyNamed(v, names) ==> v.Object?
  {}

  predicate IsList<T(!new)>(v: Json, xs: seq<T>, shows: (Json, T) -> bool) {
    && v.Array? && 1 <= |v.items| && |v.items| <= 16 && |xs| == |v.items|
    && forall i | 0 <= i < |xs| :: shows(v.items[i], xs[i])
  }

  lemma ListExactly<T(!new)>(v: Json, read: Json -> Option<T>, xs: seq<T>, shows: (Json, T) -> bool)
    requires forall item, x :: read(item) == Some(x) <==> shows(item, x)
    ensures ReadList(v, MAX_ARRAY_ITEMS, read) == Some(xs) <==> IsList(v, xs, shows)
  {
    if v.Array? {
      ReadAllExactly(v.items, read, xs);
    }
  }

  predicate IsQuery(v: Json, q: Query) {
    && OnlyNamed(v, ["id", "format", "vct", "claims"])
    && Field(v, "format") == String(Ascii("dc+sd-jwt"))
    && ShortText(Field(v, "id"), q.id) && ShortText(Field(v, "vct"), q.vct)
    && IsList(Field(v, "claims"), q.claims, IsClaim)
  }

  lemma QueryExactly(v: Json, q: Query)
    ensures ParseQuery(v) == Some(q) <==> IsQuery(v, q)
  {
    hide Field, ReadList, ReadText, ShortText, ParseClaim, IsClaim, IsList, Keys, Ascii, OnlyNamed, Known;
    KnownExactly(v, QUERY_NAMES);
    ReadTextExactly(Field(v, "id"), q.id);
    ReadTextExactly(Field(v, "vct"), q.vct);
    forall item, c ensures ParseClaim(item) == Some(c) <==> IsClaim(item, c) {
      ClaimExactly(item, c);
    }
    ListExactly(Field(v, "claims"), ParseClaim, q.claims, IsClaim);
  }

  predicate IsPolicy(v: Json, p: Policy) {
    && OnlyNamed(v, ["schemaVersion", "id", "purpose", "credentials"])
    && Field(v, "schemaVersion") == Number(1)
    && ShortText(Field(v, "id"), p.id) && ShortText(Field(v, "purpose"), p.purpose)
    && IsList(Field(v, "credentials"), p.credentials, IsQuery)
  }

  /** A policy is read from exactly the objects with its fields and no others, in any order. */
  lemma PolicyExactly(v: Json, p: Policy)
    ensures ParsePolicy(v) == Some(p) <==> IsPolicy(v, p)
  {
    hide Field, ReadList, ReadText, ShortText, ParseQuery, IsQuery, IsList, Keys, Ascii, OnlyNamed, Known;
    KnownExactly(v, POLICY_NAMES);
    ReadTextExactly(Field(v, "id"), p.id);
    ReadTextExactly(Field(v, "purpose"), p.purpose);
    forall item, q ensures ParseQuery(item) == Some(q) <==> IsQuery(item, q) {
      QueryExactly(item, q);
    }
    ListExactly(Field(v, "credentials"), ParseQuery, p.credentials, IsQuery);
  }

  // -------------------------------------------------------------------- DCQL

  predicate IsOnly(v: Json, item: Json) {
    v == Array([item])
  }

  predicate IsDcqlClaim(v: Json, c: Claim) {
    && OnlyNamed(v, ["path", "values"]) && c.requiredDisclosure
    && IsPath(Field(v, "path"), c.path) && IsOnly(Field(v, "values"), c.value) && IsBoundedScalar(c.value)
  }

  lemma DcqlClaimExactly(v: Json, c: Claim)
    ensures ReadDcqlClaim(v) == Some(c) <==> IsDcqlClaim(v, c)
  {
    hide Field, ReadList, ReadScalar, IsBoundedScalar, IsPath, Keys, OnlyNamed, Known;
    KnownExactly(v, DCQL_CLAIM_NAMES);
    PathExactly(Field(v, "path"), c.path);
    SingleExactly(Field(v, "values"), c.value);
    var values := Field(v, "values");
    if values.Array? && |values.items| == 1 {
      ScalarExactly(values.items[0], c.value);
    }
  }

  lemma SingleExactly(v: Json, item: Json)
    ensures Single(v) == Some(item) <==> IsOnly(v, item)
  {}

  predicate IsDcqlQuery(v: Json, q: Query) {
    && OnlyNamed(v, ["id", "format", "meta", "claims"])
    && Field(v, "format") == String(Ascii("dc+sd-jwt")) && ShortText(Field(v, "id"), q.id)
    && OnlyNamed(Field(v, "meta"), ["vct_values"])
    && IsOnly(Field(Field(v, "meta"), "vct_values"), String(q.vct)) && ShortText(String(q.vct), q.vct)
    && IsList(Field(v, "claims"), q.claims, IsDcqlClaim)
  }

  lemma MetaExactly(v: Json, vct: Text)
    ensures ReadMeta(v) == Some(vct)
      <==> OnlyNamed(v, ["vct_values"]) && IsOnly(Field(v, "vct_values"), String(vct)) && ShortText(String(vct), vct)
  {
    hide Ascii, Get;
    if v.Object? {
      var item := Get(v.members, Ascii("vct_values"));
      SingleExactly(item, String(vct));
      assert ["vct_values"][0] == "vct_values";
      forall m | m in v.members
        ensures (exists i | 0 <= i < |["vct_values"]| :: m.key == Ascii(["vct_values"][i]))
          <==> m.key == Ascii("vct_values") {}
    }
  }

  lemma DcqlQueryExactly(v: Json, q: Query)
    ensures ReadDcqlQuery(v) == Some(q) <==> IsDcqlQuery(v, q)
  {
    hide Field, ReadList, ReadText, ReadMeta, ShortText, ReadDcqlClaim, IsDcqlClaim, IsList, Keys, Ascii, OnlyNamed,
      Known, IsOnly;
    KnownExactly(v, DCQL_QUERY_NAMES);
    ReadTextExactly(Field(v, "id"), q.id);
    MetaExactly(Field(v, "meta"), q.vct);
    forall item, c ensures ReadDcqlClaim(item) == Some(c) <==> IsDcqlClaim(item, c) {
      DcqlClaimExactly(item, c);
    }
    ListExactly(Field(v, "claims"), ReadDcqlClaim, q.claims, IsDcqlClaim);
  }

  /** A DCQL query is accepted exactly when it has this form, and becomes a policy of the fixed id. */
  lemma DcqlExactly(v: Json, purpose: Text, p: Policy)
    ensures FromDcql(v, purpose) == Some(p) <==>
      && OnlyNamed(v, ["credentials"]) && IsList(Field(v, "credentials"), p.credentials, IsDcqlQuery)
      && p.id == Ascii("dcql-policy") && p.purpose == purpose && 1 <= |purpose| && |purpose| <= 256
  {
    hide Field, ReadList, ReadDcqlQuery, IsDcqlQuery, Keys, Ascii, OnlyNamed, Known, ParsePolicy, PolicyJson,
      ValidQuery, IsList;
    KnownExactly(v, DCQL_NAMES);
    forall item, q ensures ReadDcqlQuery(item) == Some(q) <==> IsDcqlQuery(item, q) {
      DcqlQueryExactly(item, q);
    }
    ListExactly(Field(v, "credentials"), ReadDcqlQuery, p.credentials, IsDcqlQuery);
    var read := ReadList(Field(v, "credentials"), MAX_ARRAY_ITEMS, ReadDcqlQuery);
    if read.Some? {
      PolicyRoundTrip(Policy(Ascii("dcql-policy"), purpose, read.value));
      ListExactly(Field(v, "credentials"), ReadDcqlQuery, read.value, IsDcqlQuery);
      DcqlListValid(Field(v, "credentials"), read.value);
      assert |Ascii("dcql-policy")| == 11;
    }
  }

  lemma DcqlListValid(v: Json, queries: seq<Query>)
    requires IsList(v, queries, IsDcqlQuery)
    ensures 1 <= |queries| <= 16 && forall q | q in queries :: ValidQuery(q)
  {
    hide IsDcqlQuery, ValidQuery;
    forall q | q in queries ensures ValidQuery(q) {
      var i :| 0 <= i < |queries| && queries[i] == q;
      DcqlQueryValid(v.items[i], q);
    }
  }

  lemma DcqlQueryValid(v: Json, q: Query)
    requires IsDcqlQuery(v, q)
    ensures ValidQuery(q)
  {
    hide Field, OnlyNamed, IsDcqlClaim, ValidClaim, IsOnly, Ascii;
    forall c | c in q.claims ensures ValidClaim(c) {
      var i :| 0 <= i < |q.claims| && q.claims[i] == c;
      DcqlClaimValid(Field(v, "claims").items[i], c);
    }
  }

  lemma DcqlClaimValid(v: Json, c: Claim)
    requires IsDcqlClaim(v, c)
    ensures ValidClaim(c)
  {
    hide Field, OnlyNamed, IsOnly;
    forall t | t in c.path ensures IsText(t) {
      var i :| 0 <= i < |c.path| && c.path[i] == t;
    }
  }
}
