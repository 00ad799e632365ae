/** What `canonical` promises: it throws exactly outside the printable values, it forgets only
    undefined properties and the order of keys, and the strict reader inverts it. */
module CanonicalForm {
  import opened Strings
  import opened Wrappers
  import opened Json
  import opened JsonRoundTrip

  // ------------------------------------------------------------------ sorting

  predicate SortedKeys(members: seq<Member>) {
    forall i, j | 0 <= i < j < |members| :: Less(members[i].key, members[j].key)
  }

  lemma {:induction false} InsertSorted(m: Member, sorted: seq<Member>)
    requires SortedKeys(sorted) && !HasKey(sorted, m.key)
    ensures SortedKeys(Insert(m, sorted))
  {
    if |sorted| > 0 {
      LessTotal(m.key, sorted[0].key);
      assert sorted[0] in sorted;
      if Less(m.key, sorted[0].key) {
        forall j | 0 < j < |sorted| ensures Less(m.key, sorted[j].key) {
          LessTransitive(m.key, sorted[0].key, sorted[j].key);
        }
      } else {
        var tail := sorted[1..];
        assert forall x | x in tail :: x in sorted;
        InsertSorted(m, tail);
        var r := Insert(m, tail);
        forall j | 0 <= j < |r| ensures Less(sorted[0].key, r[j].key) {
          assert r[j] in r;
        }
      }
    }
  }

  lemma {:induction false} SortSorts(members: seq<Member>)
    requires DistinctKeys(members)
    ensures SortedKeys(SortByKey(members))
  {
    if |members| > 0 {
      var tail := members[1..];
      assert forall i | 0 <= i < |tail| :: tail[i] == members[i + 1];
      SortSorts(tail);
      InsertSorted(members[0], SortByKey(tail));
    }
  }

  lemma {:induction false} SortedUnique(a: seq<Member>, b: seq<Member>)
    requires SortedKeys(a) && SortedKeys(b)
    requires forall m :: m in a <==> m in b
    ensures a == b
  {
    EmptyTogether(a, b);
    if |a| > 0 {
      FirstOfSorted(a, b[0]);
      FirstOfSorted(b, a[0]);
      LessTotal(a[0].key, b[0].key);
      assert a[0] == b[0];
      forall m ensures m in a[1..] <==> m in b[1..] {
        NotInTail(a, m);
        NotInTail(b, m);
      }
      SortedUnique(a[1..], b[1..]);
      assert a == [a[0]] + a[1..] && b == [b[0]] + b[1..];
    }
  }

  lemma EmptyTogether(a: seq<Member>, b: seq<Member>)
    requires forall m :: m in a <==> m in b
    ensures |a| == 0 <==> |b| == 0
  {
    if |a| > 0 {
      assert a[0] in a;
    }
    if |b| > 0 {
      assert b[0] in b;
    }
  }

  lemma FirstOfSorted(a: seq<Member>, m: Member)
    requires SortedKeys(a) && |a| > 0 && (m in a || m == a[0])
    ensures m == a[0] || Less(a[0].key, m.key)
  {
    if m != a[0] {
      var i :| 0 <= i < |a| && a[i] == m;
    }
  }

  lemma NotInTail(a: seq<Member>, m: Member)
    requires SortedKeys(a) && |a| > 0
    ensures m in a[1..] <==> m in a && m != a[0]
  {
    assert a == [a[0]] + a[1..];
    if m in a[1..] {
      var i :| 0 <= i < |a[1..]| && a[1..][i] == m;
      assert a[i + 1] == m;
      LessTotal(a[0].key, m.key);
    }
  }

  lemma {:induction false} LiveDistinct(members: seq<Member>)
    requires DistinctKeys(members)
    ensures DistinctKeys(Live(members))
  {
    if |members| > 0 {
      var tail := members[1..];
      assert forall i | 0 <= i < |tail| :: tail[i] == members[i + 1];
      LiveDistinct(tail);
      forall m | m in Live(tail) ensures m.key != members[0].key {
        var i :| 0 <= i < |tail| && tail[i] == m;
        assert members[i + 1] == m;
      }
    }
  }

  /** The properties of an object in the order `canonical` prints them. */
  function Sorted(members: seq<Member>): (r: seq<Member>)
    ensures forall m :: m in r <==> m in members && m.value != Undefined
  {
    SortByKey(Live(members))
  }

  lemma SortedIsSorted(members: seq<Member>)
    requires DistinctKeys(members)
    ensures SortedKeys(Sorted(members)) && DistinctKeys(Sorted(members))
  {
    LiveDistinct(members);
    SortSorts(Live(members));
    var r := Sorted(members);
    forall i, j | 0 <= i < j < |r| ensures r[i].key != r[j].key {
      LessTotal(r[i].key, r[j].key);
    }
  }

  // ------------------------------------------- canonical prints the normal form

  /** `canonical` throws exactly on an undefined item or an unsafe number, and otherwise
      prints the normal form. */
  lemma {:induction false} CanonicalIsPrint(v: Json)
    ensures Canonical(v) == if Printable(v) then Some(Print(Norm(v))) else None
    decreases v, 1
  {
    match v
    case Array(items) => CanonicalItemsIsPrint(items);
    case Object(members) => CanonicalMembersIsPrint(v, Sorted(members));
    case _ =>
  }

  lemma {:induction false} CanonicalItemsIsPrint(items: seq<Json>)
    ensures CanonicalItems(items)
         == if (forall item | item in items :: Printable(item)) then Some(PrintItems(NormItems(items))) else None
    decreases items, 0
  {
    if |items| > 0 {
      CanonicalIsPrint(items[0]);
      CanonicalItemsIsPrint(items[1..]);
      assert items == [items[0]] + items[1..];
      assert NormItems(items)[1..] == NormItems(items[1..]);
    }
  }

  lemma {:induction false} CanonicalMembersIsPrint(owner: Json, members: seq<Member>)
    requires forall m | m in members :: m.value < owner
    ensures CanonicalMembers(owner, members)
         == if (forall m | m in members :: Printable(m.value)) then Some(PrintMembers(NormMembers(owner, members)))
           else None
    decreases owner, 0, |members|
  {
    if |members| > 0 {
      assert members[0] in members;
      CanonicalIsPrint(members[0].value);
      CanonicalMembersIsPrint(owner, members[1..]);
      assert members == [members[0]] + members[1..];
      assert NormMembers(owner, members)[1..] == NormMembers(owner, members[1..]);
    }
  }

  lemma NormMembersSorted(owner: Json, members: seq<Member>)
    requires forall m | m in members :: m.value < owner
    requires SortedKeys(members) && DistinctKeys(members)
    ensures SortedKeys(NormMembers(owner, members)) && DistinctKeys(NormMembers(owner, members))
  {
    var r := NormMembers(owner, members);
    assert forall i | 0 <= i < |r| :: r[i].key == members[i].key;
  }

  lemma {:induction false} NormIsClean(v: Json)
    requires Printable(v) && WellFormed(v)
    ensures Clean(Norm(v))
    decreases v
  {
    match v
    case Array(items) =>
      forall item | item in NormItems(items) ensures Clean(item) {
        var i :| 0 <= i < |items| && item == Norm(items[i]);
        assert items[i] in items;
        NormIsClean(items[i]);
      }
    case Object(members) =>
      var sorted := Sorted(members);
      SortedIsSorted(members);
      NormMembersSorted(v, sorted);
      forall m | m in NormMembers(v, sorted) ensures Units(m.key) && Clean(m.value) {
        var i :| 0 <= i < |sorted| && m == NormMembers(v, sorted)[i];
        assert sorted[i] in members;
        NormIsClean(sorted[i].value);
      }
    case _ =>
  }

  /** The bounds may be checked on the value itself. */
  lemma {:induction false} NormFits(v: Json, depth: int, limits: Limits)
    ensures Fits(Norm(v), depth, limits) <==> Fits(v, depth, limits)
    decreases v
  {
    match v
    case Array(items) =>
      var r := NormItems(items);
      forall i | 0 <= i < |items| ensures Fits(r[i], depth + 1, limits) <==> Fits(items[i], depth + 1, limits) {
        NormFits(items[i], depth + 1, limits);
      }
      ItemsFitPointwise(r, items, depth + 1, limits);
    case Object(members) =>
      var sorted := Sorted(members);
      var r := NormMembers(v, sorted);
      forall i | 0 <= i < |sorted|
        ensures Fits(r[i].value, depth + 1, limits) <==> Fits(sorted[i].value, depth + 1, limits)
        ensures r[i].value != Undefined && sorted[i].value != Undefined
      {
        assert sorted[i] in sorted;
        NormFits(sorted[i].value, depth + 1, limits);
      }
      MembersFitPointwise(r, sorted, depth + 1, limits);
      assert MembersFit(sorted, depth + 1, limits) <==> MembersFit(members, depth + 1, limits);
    case _ =>
  }

  lemma ItemsFitPointwise(a: seq<Json>, b: seq<Json>, depth: int, limits: Limits)
    requires |a| == |b|
    requires forall i | 0 <= i < |a| :: Fits(a[i], depth, limits) <==> Fits(b[i], depth, limits)
    ensures ItemsFit(a, depth, limits) <==> ItemsFit(b, depth, limits)
  {
    hide Fits;
    assert ItemsFit(a, depth, limits) <==> forall i | 0 <= i < |a| :: Fits(a[i], depth, limits);
    assert ItemsFit(b, depth, limits) <==> forall i | 0 <= i < |b| :: Fits(b[i], depth, limits);
  }

  lemma MembersFitPointwise(a: seq<Member>, b: seq<Member>, depth: int, limits: Limits)
    requires |a| == |b|
    requires forall i | 0 <= i < |a| :: a[i].key == b[i].key && a[i].value != Undefined && b[i].value != Undefined
    requires forall i | 0 <= i < |a| :: Fits(a[i].value, depth, limits) <==> Fits(b[i].value, depth, limits)
    ensures MembersFit(a, depth, limits) <==> MembersFit(b, depth, limits)
  {
    hide Fits;
    assert MembersFit(a, depth, limits) <==>
      forall i | 0 <= i < |a| :: FitsMember(a[i], limits) && Fits(a[i].value, depth, limits);
    assert MembersFit(b, depth, limits) <==>
      forall i | 0 <= i < |b| :: FitsMember(b[i], limits) && Fits(b[i].value, depth, limits);
    assert forall i | 0 <= i < |a| :: FitsMember(a[i], limits) <==> FitsMember(b[i], limits);
  }

  // ------------------------------------------------------------ the same value

  /** Two values a program cannot tell apart by reading them: the same properties, ignoring
      undefined ones and the order in which they were added. */
  ghost predicate SameValue(v: Json, w: Json)
    decreases v
  {
    match v
    case Array(items) =>
      w.Array? && |items| == |w.items| && forall i | 0 <= i < |items| :: SameValue(items[i], w.items[i])
    case Object(members) =>
      && w.Object?
      && (forall m | m in members && m.value != Undefined :: MatchedIn(m, w.members))
      && (forall n | n in w.members && n.value != Undefined :: LiveKey(n.key, members))
    case _ => v == w
  }

  ghost predicate MatchedIn(m: Member, members: seq<Member>)
    decreases m
  {
    exists n | n in members :: n.key == m.key && n.value != Undefined && SameValue(m.value, n.value)
  }

  ghost predicate LiveKey(key: Text, members: seq<Member>) {
    exists m | m in members :: m.key == key && m.value != Undefined
  }

  /** The properties of the normal form of an object. */
  function NormObject(v: Json): seq<Member>
    requires v.Object?
  {
    NormMembers(v, Sorted(v.members))
  }

  lemma NormObjectHas(v: Json, m: Member)
    requires v.Object? && m in v.members && m.value != Undefined
    ensures Member(m.key, Norm(m.value)) in NormObject(v)
  {
    var a := Sorted(v.members);
    var i :| 0 <= i < |a| && a[i] == m;
    assert NormObject(v)[i] == Member(m.key, Norm(m.value));
  }

  lemma NormObjectFrom(v: Json, r: Member) returns (m: Member)
    requires v.Object? && r in NormObject(v)
    ensures m in v.members && m.value != Undefined && r == Member(m.key, Norm(m.value))
    ensures m.value < v
  {
    var a := Sorted(v.members);
    var i :| 0 <= i < |a| && NormObject(v)[i] == r;
    m := a[i];
    assert m in a;
  }

  lemma NormObjectSorted(v: Json)
    requires v.Object? && WellFormed(v)
    ensures SortedKeys(NormObject(v)) && DistinctKeys(NormObject(v))
  {
    SortedIsSorted(v.members);
    NormMembersSorted(v, Sorted(v.members));
  }

  lemma {:induction false} SameNormSameValue(v: Json, w: Json)
    requires Norm(v) == Norm(w)
    ensures SameValue(v, w)
    decreases v
  {
    match v
    case Array(items) =>
      forall i | 0 <= i < |items| ensures SameValue(items[i], w.items[i]) {
        assert NormItems(items)[i] == NormItems(w.items)[i];
        SameNormSameValue(items[i], w.items[i]);
      }
    case Object(members) =>
      assert NormObject(v) == NormObject(w);
      SameNormObjects(v, w);
    case _ =>
  }

  lemma {:induction false} SameNormObjects(v: Json, w: Json)
    requires v.Object? && w.Object? && NormObject(v) == NormObject(w)
    ensures SameValue(v, w)
    decreases v, 0
  {
    hide Norm, NormObject, SameValue;
    forall m | m in v.members && m.value != Undefined ensures MatchedIn(m, w.members) {
      NormObjectHas(v, m);
      var n := NormObjectFrom(w, Member(m.key, Norm(m.value)));
      SameNormSameValue(m.value, n.value);
    }
    forall n | n in w.members && n.value != Undefined ensures LiveKey(n.key, v.members) {
      NormObjectHas(w, n);
      var m := NormObjectFrom(v, Member(n.key, Norm(n.value)));
    }
    SameObjects(v, w);
  }

  /** The definition of SameValue on two objects. */
  lemma SameObjects(v: Json, w: Json)
    requires v.Object? && w.Object?
    ensures SameValue(v, w) <==>
      && (forall m | m in v.members && m.value != Undefined :: MatchedIn(m, w.members))
      && (forall n | n in w.members && n.value != Undefined :: LiveKey(n.key, v.members))
  {}

  lemma {:induction false} SameValueSameNorm(v: Json, w: Json)
    requires WellFormed(v) && WellFormed(w) && SameValue(v, w)
    ensures Norm(v) == Norm(w)
    decreases v
  {
    match v
    case Array(items) =>
      forall i | 0 <= i < |items| ensures NormItems(items)[i] == NormItems(w.items)[i] {
        assert items[i] in items && w.items[i] in w.items;
        SameValueSameNorm(items[i], w.items[i]);
      }
    case Object(members) =>
      SameObjectsSameNorm(v, w);
      assert NormObject(v) == NormObject(w);
    case _ =>
  }

  lemma {:induction false} SameObjectsSameNorm(v: Json, w: Json)
    requires v.Object? && w.Object? && WellFormed(v) && WellFormed(w) && SameValue(v, w)
    ensures NormObject(v) == NormObject(w)
    decreases v, 0
  {
    hide Norm, NormObject, SameValue;
    NormObjectSorted(v);
    NormObjectSorted(w);
    forall r ensures r in NormObject(v) <==> r in NormObject(w) {
      if r in NormObject(v) {
        NormMemberForward(v, w, r);
      }
      if r in NormObject(w) {
        NormMemberBackward(v, w, r);
      }
    }
    SortedUnique(NormObject(v), NormObject(w));
  }

  lemma WellFormedParts(v: Json)
    requires v.Object? && WellFormed(v)
    ensures DistinctKeys(v.members) && forall m | m in v.members :: WellFormed(m.value)
  {}

  lemma NormMemberForward(v: Json, w: Json, r: Member)
    requires v.Object? && w.Object? && WellFormed(v) && WellFormed(w) && SameValue(v, w)
    requires r in NormObject(v)
    ensures r in NormObject(w)
    decreases v, 0, 0
  {
    hide Norm, NormObject, SameValue, DistinctKeys, WellFormed;
    WellFormedParts(v);
    WellFormedParts(w);
    var m := NormObjectFrom(v, r);
    SameObjects(v, w);
    var n :| n in w.members && n.key == m.key && n.value != Undefined && SameValue(m.value, n.value);
    SameValueSameNorm(m.value, n.value);
    NormObjectHas(w, n);
  }

  lemma NormMemberBackward(v: Json, w: Json, r: Member)
    requires v.Object? && w.Object? && WellFormed(v) && WellFormed(w) && SameValue(v, w)
    requires r in NormObject(w)
    ensures r in NormObject(v)
    decreases v, 0, 0
  {
    hide Norm, NormObject, SameValue, DistinctKeys, WellFormed;
    WellFormedParts(v);
    WellFormedParts(w);
    var n := NormObjectFrom(w, r);
    SameObjects(v, w);
    var m :| m in v.members && m.key == n.key && m.value != Undefined;
    var k :| k in w.members && k.key == m.key && k.value != Undefined && SameValue(m.value, k.value);
    OneMemberPerKey(w.members, k, n);
    var i :| 0 <= i < |v.members| && v.members[i] == m;
    SameValueSameNorm(m.value, n.value);
    NormObjectHas(v, m);
  }

  lemma OneMemberPerKey(members: seq<Member>, m: Member, n: Member)
    requires DistinctKeys(members) && m in members && n in members && m.key == n.key
    ensures m == n
  {
    var i :| 0 <= i < |members| && members[i] == m;
    var j :| 0 <= j < |members| && members[j] == n;
    assert !(i < j) && !(j < i);
  }

  // --------------------------------------------------------------- main results

  /** The strict reader inverts `canonical`: it returns the value, keys sorted, when the value
      is within the reader's bounds, and throws otherwise. */
  lemma ReaderInvertsCanonical(v: Json, limits: Limits, rounding: Rounding)
    requires Printable(v) && WellFormed(v)
    ensures Canonical(v).Some?
    ensures Parse(Canonical(v).value, limits, rounding) == if Fits(v, 0, limits) then Some(Norm(v)) else None
    ensures SameValue(v, Norm(v))
  {
    CanonicalIsPrint(v);
    NormIsClean(v);
    NormFits(v, 0, limits);
    var t := Print(Norm(v));
    assert t + [] == t;
    ValueRoundTrip(Norm(v), [], 0, limits, rounding);
    NormIdempotent(v);
    SameNormSameValue(v, Norm(v));
  }

  lemma {:induction false} NormIdempotent(v: Json)
    requires WellFormed(v)
    ensures Norm(Norm(v)) == Norm(v)
    ensures v != Undefined ==> Norm(v) != Undefined
    decreases v
  {
    match v
    case Array(items) =>
      forall i | 0 <= i < |items| ensures NormItems(NormItems(items))[i] == NormItems(items)[i] {
        assert items[i] in items;
        NormIdempotent(items[i]);
      }
    case Object(members) =>
      NormObjectIdempotent(v);
    case _ =>
  }

  lemma {:induction false} NormObjectIdempotent(v: Json)
    requires v.Object? && WellFormed(v)
    ensures NormObject(Object(NormObject(v))) == NormObject(v)
    decreases v, 0
  {
    var r := NormObject(v);
    var o := Object(r);
    NormObjectSorted(v);
    forall m | m in r ensures m.value != Undefined && Norm(m.value) == m.value {
      var n := NormObjectFrom(v, m);
      NormIdempotent(n.value);
    }
    SortedIsSorted(r);
    hide Norm, NormObject, WellFormed;
    SortedUnique(Sorted(r), r);
    NormMembersFixed(o, Sorted(r));
    NormObjectIs(o);
  }

  lemma NormObjectIs(v: Json)
    requires v.Object?
    ensures NormObject(v) == NormMembers(v, Sorted(v.members))
  {}

  lemma NormMembersFixed(owner: Json, members: seq<Member>)
    requires forall m | m in members :: m.value < owner && Norm(m.value) == m.value
    ensures NormMembers(owner, members) == members
  {
    hide Norm, NormMembers;
    var r := NormMembers(owner, members);
    forall i | 0 <= i < |members| ensures r[i] == members[i] {
      assert members[i] in members;
    }
  }

  /** Nothing is out of the bare grammar's bounds. */
  lemma {:induction false} UnboundedFits(v: Json, depth: int)
    ensures Fits(v, depth, Unbounded)
    decreases v
  {
    match v
    case Array(items) =>
      forall item | item in items ensures Fits(item, depth + 1, Unbounded) {
        UnboundedFits(item, depth + 1);
      }
    case Object(members) =>
      forall m | m in members ensures Fits(m.value, depth + 1, Unbounded) {
        UnboundedFits(m.value, depth + 1);
      }
    case _ =>
  }

  /** Two values have the same canonical text exactly when they are the same value, whatever
      the order of their keys and however large they are. */
  lemma CanonicalInjective(v: Json, w: Json)
    requires Printable(v) && WellFormed(v) && Printable(w) && WellFormed(w)
    ensures Canonical(v) == Canonical(w) <==> SameValue(v, w)
  {
    var rounding: Rounding := t => None;
    ReaderInvertsCanonical(v, Unbounded, rounding);
    ReaderInvertsCanonical(w, Unbounded, rounding);
    UnboundedFits(v, 0);
    UnboundedFits(w, 0);
    if Canonical(v) == Canonical(w) {
      SameNormSameValue(v, w);
    }
    if SameValue(v, w) {
      SameValueSameNorm(v, w);
      CanonicalIsPrint(v);
      CanonicalIsPrint(w);
    }
  }
}
