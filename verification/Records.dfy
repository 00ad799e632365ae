/** Objects with named fields: how the parsers read them and what the canonical form keeps of them. */
module Records {
  import opened Strings
  import opened Wrappers
  import opened Json
  import opened JsonRoundTrip
  import opened CanonicalForm

  /** `object[key]`. */
  function Get(members: seq<Member>, key: Text): Json {
    if |members| == 0 then Undefined
    else if members[0].key == key then members[0].value
    else Get(members[1..], key)
  }

  function Field(v: Json, name: string): Json {
    if v.Object? then Get(v.members, Ascii(name)) else Undefined
  }

  /** `{ [key]: _, ...rest } = object` */
  function Without(members: seq<Member>, key: Text): (r: seq<Member>)
    ensures forall m :: m in r <==> m in members && m.key != key
  {
    if |members| == 0 then []
    else if members[0].key == key then Without(members[1..], key)
    else [members[0]] + Without(members[1..], key)
  }

  /** Every required key is there and no key is unknown. */
  predicate ExactKeys(members: seq<Member>, required: seq<string>, optional: seq<string>) {
    && (forall name | name in required :: HasKey(members, Ascii(name)))
    && (forall m | m in members :: m.key in Keys(required + optional))
  }

  function Keys(names: seq<string>): seq<Text> {
    seq(|names|, i requires 0 <= i < |names| => Ascii(names[i]))
  }

  /** The object literal with these fields, in this order. */
  function Record(names: seq<string>, values: seq<Json>): Json
    requires |names| == |values|
  {
    Object(seq(|names|, i requires 0 <= i < |names| => Member(Ascii(names[i]), values[i])))
  }

  /** Letters only, so that two different names stay different keys. */
  predicate IsName(s: string) {
    forall c | c in s :: 'a' <= c <= 'z' || 'A' <= c <= 'Z'
  }

  /** Letters only, and not a key the reader refuses. */
  ghost predicate Letters(names: seq<string>) {
    forall name | name in names :: IsName(name) && name != "constructor" && name != "prototype"
  }

  ghost predicate FieldNames(names: seq<string>) {
    Letters(names) && forall i, j | 0 <= i < j < |names| :: names[i] != names[j]
  }

  lemma LettersAppend(a: seq<string>, b: seq<string>)
    requires Letters(a) && Letters(b)
    ensures Letters(a + b)
  {}

  lemma NameText(s: string)
    requires IsName(s)
    ensures Units(Ascii(s)) && !HasControl(Ascii(s))
    ensures forall i | 0 <= i < |s| :: Ascii(s)[i] == s[i] as int
  {
    var t := Ascii(s);
    forall i | 0 <= i < |s| ensures t[i] == s[i] as int && !IsControl(t[i]) {
      assert s[i] in s;
    }
  }

  lemma NameInjective(a: string, b: string)
    requires IsName(a) && IsName(b) && Ascii(a) == Ascii(b)
    ensures a == b
  {
    NameText(a);
    NameText(b);
    assert |a| == |Ascii(a)| && |b| == |Ascii(b)|;
    forall i | 0 <= i < |a| ensures a[i] == b[i] {
      assert Ascii(a)[i] == Ascii(b)[i];
    }
  }

  lemma NameSafe(s: string)
    requires IsName(s) && s != "constructor" && s != "prototype"
    ensures !UnsafeKey(Ascii(s))
  {
    NameText(s);
    if |s| > 0 {
      assert s[0] in s;
    }
    assert Ascii("__proto__")[0] == '_' as int && |Ascii("__proto__")| == 9;
    if Ascii(s) == Ascii("constructor") {
      NameInjective(s, "constructor");
    }
    if Ascii(s) == Ascii("prototype") {
      NameInjective(s, "prototype");
    }
  }

  // ----------------------------------------------------------------- lists

  function Map<A, B>(xs: seq<A>, f: A -> B): (r: seq<B>)
    ensures |r| == |xs| && forall i | 0 <= i < |xs| :: r[i] == f(xs[i])
  {
    seq(|xs|, i requires 0 <= i < |xs| => f(xs[i]))
  }

  function ReadAll<T>(items: seq<Json>, read: Json -> Option<T>): Option<seq<T>> {
    if |items| == 0 then Some([])
    else
      var head :- read(items[0]);
      var rest :- ReadAll(items[1..], read);
      Some([head] + rest)
  }

  lemma {:induction false} ReadAllBuilt<T>(xs: seq<T>, write: T -> Json, read: Json -> Option<T>, valid: T -> bool)
    requires forall x | x in xs :: read(write(x)) == if valid(x) then Some(x) else None
    ensures ReadAll(Map(xs, write), read) == if forall x | x in xs :: valid(x) then Some(xs) else None
  {
    if |xs| > 0 {
      assert Map(xs, write)[1..] == Map(xs[1..], write);
      assert xs == [xs[0]] + xs[1..];
      ReadAllBuilt(xs[1..], write, read, valid);
    }
  }

  /** As ReadAllBuilt, where reading changes each element in the same way. */
  lemma {:induction false} ReadAllMapped<T, U>(xs: seq<T>, write: T -> Json, read: Json -> Option<U>, change: T -> U)
    requires forall x | x in xs :: read(write(x)) == Some(change(x))
    ensures ReadAll(Map(xs, write), read) == Some(Map(xs, change))
  {
    if |xs| > 0 {
      assert Map(xs, write)[1..] == Map(xs[1..], write);
      assert Map(xs, change) == [change(xs[0])] + Map(xs[1..], change);
      ReadAllMapped(xs[1..], write, read, change);
    }
  }

  lemma {:induction false} ReadAllGives<T>(items: seq<Json>, read: Json -> Option<T>, valid: T -> bool)
    requires forall item | item in items && read(item).Some? :: valid(read(item).value)
    ensures ReadAll(items, read).Some? ==> forall x | x in ReadAll(items, read).value :: valid(x)
  {
    if |items| > 0 {
      assert items[0] in items;
      ReadAllGives(items[1..], read, valid);
    }
  }

  lemma {:induction false} ReadAllLength<T>(items: seq<Json>, read: Json -> Option<T>)
    ensures ReadAll(items, read).Some? ==> |ReadAll(items, read).value| == |items|
  {
    if |items| > 0 {
      ReadAllLength(items[1..], read);
    }
  }

  // --------------------------------------------------------------- reading

  lemma {:induction false} GetMember(members: seq<Member>, m: Member)
    requires DistinctKeys(members) && m in members
    ensures Get(members, m.key) == m.value
  {
    if members[0].key == m.key {
      OneMemberPerKey(members, m, members[0]);
    } else {
      var tail := members[1..];
      assert members == [members[0]] + tail;
      assert forall i | 0 <= i < |tail| :: tail[i] == members[i + 1];
      GetMember(tail, m);
    }
  }

  lemma {:induction false} GetAbsent(members: seq<Member>, key: Text)
    requires !HasKey(members, key)
    ensures Get(members, key) == Undefined
  {
    if |members| > 0 {
      assert members[0] in members;
      assert forall m | m in members[1..] :: m in members;
      GetAbsent(members[1..], key);
    }
  }

  lemma {:induction false} GetWithout(members: seq<Member>, key: Text, dropped: Text)
    requires key != dropped
    ensures Get(Without(members, dropped), key) == Get(members, key)
    ensures HasKey(Without(members, dropped), key) <==> HasKey(members, key)
  {
    if |members| > 0 {
      GetWithout(members[1..], key, dropped);
      if HasKey(members, key) {
        var m :| m in members && m.key == key;
        assert m in Without(members, dropped);
      }
    }
  }

  lemma {:induction false} GetWellFormed(members: seq<Member>, key: Text)
    requires forall m | m in members :: WellFormed(m.value)
    ensures WellFormed(Get(members, key))
  {
    if |members| > 0 {
      assert members[0] in members;
      GetWellFormed(members[1..], key);
    }
  }

  lemma RecordKeys(names: seq<string>, values: seq<Json>)
    requires |names| == |values| && FieldNames(names)
    ensures DistinctKeys(Record(names, values).members)
    ensures forall i | 0 <= i < |names| :: Member(Ascii(names[i]), values[i]) in Record(names, values).members
  {
    var ms := Record(names, values).members;
    forall i, j | 0 <= i < j < |ms| ensures ms[i].key != ms[j].key {
      if ms[i].key == ms[j].key {
        NameInjective(names[i], names[j]);
      }
    }
    forall i | 0 <= i < |names| ensures Member(Ascii(names[i]), values[i]) in ms {
      assert ms[i] == Member(Ascii(names[i]), values[i]);
    }
  }

  /** A field of a record literal is the value written there. */
  lemma FieldOfRecord(names: seq<string>, values: seq<Json>, i: nat)
    requires |names| == |values| && FieldNames(names) && i < |names|
    ensures Field(Record(names, values), names[i]) == values[i]
  {
    RecordKeys(names, values);
    GetMember(Record(names, values).members, Member(Ascii(names[i]), values[i]));
  }

  lemma RecordExact(names: seq<string>, values: seq<Json>)
    requires |names| == |values| && FieldNames(names)
    ensures ExactKeys(Record(names, values).members, names, [])
  {
    var ms := Record(names, values).members;
    RecordKeys(names, values);
    forall name | name in names ensures HasKey(ms, Ascii(name)) {
      var i :| 0 <= i < |names| && names[i] == name;
      assert Member(Ascii(names[i]), values[i]) in ms;
    }
    assert names + [] == names;
    forall m | m in ms ensures m.key in Keys(names) {
      var i :| 0 <= i < |ms| && ms[i] == m;
      assert Keys(names)[i] == m.key;
    }
  }

  predicate Shaped(v: Json, required: seq<string>, optional: seq<string>) {
    v.Object? && ExactKeys(v.members, required, optional)
  }

  /** A record literal has the shape its names ask for, and each field is the value written. */
  lemma RecordShape(names: seq<string>, values: seq<Json>)
    requires |names| == |values| && FieldNames(names)
    ensures Shaped(Record(names, values), names, [])
    ensures forall i | 0 <= i < |names| :: Field(Record(names, values), names[i]) == values[i]
  {
    RecordExact(names, values);
    forall i | 0 <= i < |names| ensures Field(Record(names, values), names[i]) == values[i] {
      FieldOfRecord(names, values, i);
    }
  }

  lemma RecordWellFormed(names: seq<string>, values: seq<Json>)
    requires |names| == |values| && FieldNames(names)
    requires forall v | v in values :: WellFormed(v)
    ensures WellFormed(Record(names, values))
  {
    var ms := Record(names, values).members;
    RecordKeys(names, values);
    forall m | m in ms ensures Units(m.key) && WellFormed(m.value) {
      var i :| 0 <= i < |ms| && ms[i] == m;
      NameText(names[i]);
      assert values[i] in values;
    }
  }

  lemma RecordPrintable(names: seq<string>, values: seq<Json>)
    requires |names| == |values|
    requires forall v | v in values :: v == Undefined || Printable(v)
    ensures Printable(Record(names, values))
  {
    var ms := Record(names, values).members;
    forall m | m in ms ensures m.value == Undefined || Printable(m.value) {
      var i :| 0 <= i < |ms| && ms[i] == m;
      assert values[i] in values;
    }
  }

  lemma RecordFits(names: seq<string>, values: seq<Json>, depth: int, limits: Limits)
    requires |names| == |values| && FieldNames(names)
    requires !limits.TooDeep(depth)
    requires forall v | v in values :: v == Undefined || Fits(v, depth + 1, limits)
    ensures Fits(Record(names, values), depth, limits)
  {
    var ms := Record(names, values).members;
    forall m | m in ms && m.value != Undefined ensures FitsMember(m, limits) && Fits(m.value, depth + 1, limits) {
      var i :| 0 <= i < |ms| && ms[i] == m;
      NameText(names[i]);
      NameSafe(names[i]);
      assert values[i] in values;
    }
    assert MembersFit(ms, depth + 1, limits);
  }

  // ------------------------------------------------ fields of the canonical form

  lemma NormIsObject(v: Json)
    requires v.Object?
    ensures Norm(v) == Object(NormObject(v))
  {}

  /** The canonical form has the same fields. */
  lemma GetOfNorm(v: Json, key: Text)
    requires v.Object? && WellFormed(v)
    ensures Get(NormObject(v), key) == Norm(Get(v.members, key))
    ensures HasKey(NormObject(v), key) <==> Get(v.members, key) != Undefined
  {
    hide Norm, NormObject;
    NormObjectSorted(v);
    if HasKey(NormObject(v), key) {
      var r :| r in NormObject(v) && r.key == key;
      var m := NormObjectFrom(v, r);
    }
    if exists m :: m in v.members && m.key == key && m.value != Undefined {
      var m :| m in v.members && m.key == key && m.value != Undefined;
      NormObjectHas(v, m);
      GetMember(v.members, m);
      GetMember(NormObject(v), Member(key, Norm(m.value)));
    } else {
      if HasKey(v.members, key) {
        var m :| m in v.members && m.key == key;
        GetMember(v.members, m);
      } else {
        GetAbsent(v.members, key);
      }
      GetAbsent(NormObject(v), key);
      NormUndefined();
    }
  }

  lemma NormUndefined()
    ensures Norm(Undefined) == Undefined
  {}

  /** Values with no parts are their own canonical form. */
  lemma NormScalar(v: Json)
    requires !v.Array? && !v.Object?
    ensures Norm(v) == v
  {}

  /** The keys of the canonical form of a record with every field defined. */
  lemma NormExact(names: seq<string>, values: seq<Json>)
    requires |names| == |values| && FieldNames(names)
    requires forall v | v in values :: WellFormed(v) && v != Undefined
    ensures ExactKeys(NormObject(Record(names, values)), names, [])
  {
    var v := Record(names, values);
    RecordWellFormed(names, values);
    RecordExact(names, values);
    assert names + [] == names;
    forall name | name in names ensures HasKey(NormObject(v), Ascii(name)) {
      var i :| 0 <= i < |names| && names[i] == name;
      FieldOfRecord(names, values, i);
      assert values[i] in values;
      GetOfNorm(v, Ascii(name));
    }
    forall r | r in NormObject(v) ensures r.key in Keys(names) {
      var m := NormObjectFrom(v, r);
    }
  }

  // -------------------------------------------------------- looking up by name

  /** The first member of the name has the value. */
  ghost predicate FirstMember(members: seq<Member>, key: Text, value: Json) {
    exists i | 0 <= i < |members| :: members[i] == Member(key, value) && forall j | 0 <= j < i :: members[j].key != key
  }

  lemma {:induction false} GetFirst(members: seq<Member>, key: Text)
    ensures HasKey(members, key) ==> FirstMember(members, key, Get(members, key))
    ensures forall value | FirstMember(members, key, value) :: HasKey(members, key) && Get(members, key) == value
  {
    if |members| > 0 {
      var tail := members[1..];
      GetFirst(tail, key);
      if members[0].key == key {
        assert members[0] == Member(key, members[0].value);
        assert FirstMember(members, key, members[0].value);
      } else if HasKey(tail, key) {
        var i :| 0 <= i < |tail| && tail[i] == Member(key, Get(tail, key)) && forall j | 0 <= j < i ::
          tail[j].key != key;
        assert members[i + 1] == Member(key, Get(tail, key));
        assert forall j | 0 <= j < i + 1 :: j > 0 ==> members[j] == tail[j - 1];
        assert FirstMember(members, key, Get(members, key));
      }
      forall value | FirstMember(members, key, value) ensures HasKey(members, key) && Get(members, key) == value {
        var i :| 0 <= i < |members| && members[i] == Member(key, value) && forall j | 0 <= j < i ::
          members[j].key != key;
        assert members[i] in members;
        if i > 0 {
          assert tail[i - 1] == members[i] && forall j | 0 <= j < i - 1 :: tail[j] == members[j + 1];
          assert FirstMember(tail, key, value);
        }
      }
    }
  }

  /** The object has a property of this name and value. */
  ghost predicate Has(v: Json, name: string, value: Json) {
    v.Object? && FirstMember(v.members, Ascii(name), value)
  }

  lemma FieldExactly(v: Json, name: string, value: Json)
    requires value != Undefined
    ensures Field(v, name) == value <==> Has(v, name, value)
  {
    hide FirstMember, Get;
    if v.Object? {
      GetFirst(v.members, Ascii(name));
      if !HasKey(v.members, Ascii(name)) {
        GetAbsent(v.members, Ascii(name));
      }
    }
  }

  /** No property but of these names. */
  predicate OnlyNamed(v: Json, names: seq<string>) {
    v.Object? && forall m | m in v.members :: exists i | 0 <= i < |names| :: m.key == Ascii(names[i])
  }

  lemma OnlyNamedExactly(v: Json, names: seq<string>)
    ensures v.Object? ==> ((forall m | m in v.members :: m.key in Keys(names)) <==> OnlyNamed(v, names))
  {
    hide Ascii;
    if v.Object? {
      forall m | m in v.members ensures m.key in Keys(names) <==> exists i | 0 <= i < |names| ::
        m.key == Ascii(names[i]) {
        if i :| 0 <= i < |names| && m.key == Ascii(names[i]) {
          assert Keys(names)[i] == m.key;
        }
      }
    }
  }

  /** Reading a list reads each item, and fails when one does. */
  lemma {:induction false} ReadAllExactly<T>(items: seq<Json>, read: Json -> Option<T>, xs: seq<T>)
    ensures ReadAll(items, read) == Some(xs)
      <==> |xs| == |items| && forall i | 0 <= i < |items| :: read(items[i]) == Some(xs[i])
  {
    if |items| > 0 {
      if |xs| > 0 {
        ReadAllExactly(items[1..], read, xs[1..]);
        assert xs == [xs[0]] + xs[1..];
        forall i | 0 <= i < |items[1..]| ensures items[1..][i] == items[i + 1] {}
        if |xs| == |items| {
          forall i | 0 <= i < |xs[1..]| ensures xs[1..][i] == xs[i + 1] {}
          if forall i | 0 <= i < |items| :: read(items[i]) == Some(xs[i]) {
            forall i | 0 <= i < |items[1..]| ensures read(items[1..][i]) == Some(xs[1..][i]) {}
          }
        }
      }
    }
  }
}
