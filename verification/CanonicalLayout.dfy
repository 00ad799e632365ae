/**
 The canonical text itself, unit by unit: which characters a value is written with, and no others.  The
 laws about reading it back would also hold of other texts, with spaces or needless escapes, say.
 */
module CanonicalLayout {
  import opened Strings
  import opened Wrappers
  import opened Json
  import opened CanonicalForm

  // ------------------------------------------------------------------- strings

  /** Written as it is: no control character, quotation mark, backslash or half of a surrogate pair. */
  predicate Verbatim(c: CodeUnit) {
    0x20 <= c <= 0xffff && c != 0x22 && c != 0x5c && !(0xd800 <= c <= 0xdfff)
  }

  lemma {:induction false} VerbatimEscape(t: Text)
    requires forall c | c in t :: Verbatim(c)
    ensures Escape(t) == t
  {
    if |t| > 0 {
      assert t[0] in t && forall c | c in t[1..] :: c in t;
      VerbatimEscape(t[1..]);
      assert [t[0]] + t[1..] == t;
    }
  }

  /** A text of such code units is written between quotation marks and not changed. */
  lemma VerbatimText(t: Text)
    requires forall c | c in t :: Verbatim(c)
    ensures Canonical(String(t)) == Some([0x22] + t + [0x22])
  {
    hide Escape;
    VerbatimEscape(t);
  }

  /** The code units with an escape of two characters, and the second of these. */
  const SHORT_ESCAPES: map<CodeUnit, CodeUnit> :=
    map[0x22 := 0x22, 0x5c := 0x5c, 0x08 := 0x62, 0x09 := 0x74, 0x0a := 0x6e, 0x0c := 0x66, 0x0d := 0x72]

  /** The value of a lower-case hexadecimal digit. */
  function HexNumber(u: CodeUnit): Option<int> {
    if 0x30 <= u <= 0x39 then Some(u - 0x30) else if 0x61 <= u <= 0x66 then Some(u - 0x61 + 10) else None
  }

  /** Four such digits for c. */
  predicate FourHex(d: Text, c: CodeUnit) {
    && |d| == 4 && HexNumber(d[0]).Some? && HexNumber(d[1]).Some? && HexNumber(d[2]).Some? && HexNumber(d[3]).Some?
    && c == ((HexNumber(d[0]).value * 16 + HexNumber(d[1]).value) * 16 + HexNumber(d[2]).value) * 16
            + HexNumber(d[3]).value
  }

  /** Every other code unit alone: seven short escapes, `\u` and four lower-case hexadecimal digits for the
      other control characters and for half a pair. */
  lemma EscapedUnit(c: CodeUnit)
    requires 0 <= c <= 0xffff && !Verbatim(c)
    ensures c in SHORT_ESCAPES ==> Canonical(String([c])) == Some([0x22, 0x5c, SHORT_ESCAPES[c], 0x22])
    ensures c !in SHORT_ESCAPES ==>
      exists d | FourHex(d, c) :: Canonical(String([c])) == Some([0x22, 0x5c, 0x75] + d + [0x22])
  {
    hide Canonical, FourHex;
    UnitAlone(c);
    if c in SHORT_ESCAPES {
      assert [0x22] + EscapeUnit(c) + [0x22] == [0x22, 0x5c, SHORT_ESCAPES[c], 0x22];
    } else {
      var d := UnicodeEscape(c)[2..];
      HexDigits(c);
      assert EscapeUnit(c) == [0x5c, 0x75] + d;
      assert [0x22] + EscapeUnit(c) + [0x22] == [0x22, 0x5c, 0x75] + d + [0x22];
      assert FourHex(d, c) && Canonical(String([c])) == Some([0x22, 0x5c, 0x75] + d + [0x22]);
    }
  }

  lemma UnitAlone(c: CodeUnit)
    ensures Canonical(String([c])) == Some([0x22] + EscapeUnit(c) + [0x22])
  {
    hide EscapeUnit;
    assert [c][1..] == [] && Escape([c]) == Chunk([c]) + Escape([c][1..]);
    assert Escape([c]) == EscapeUnit(c);
  }

  lemma HexDigits(c: CodeUnit)
    requires 0 <= c <= 0xffff
    ensures FourHex(UnicodeEscape(c)[2..], c)
  {
    hide HexDigit, HexNumber;
    HexSum(c);
    var d := UnicodeEscape(c)[2..];
    assert d == [HexDigit(c / 0x1000 % 16), HexDigit(c / 0x100 % 16), HexDigit(c / 16 % 16), HexDigit(c % 16)];
    HexIs(c / 0x1000 % 16);
    HexIs(c / 0x100 % 16);
    HexIs(c / 16 % 16);
    HexIs(c % 16);
  }

  lemma HexSum(c: CodeUnit)
    requires 0 <= c <= 0xffff
    ensures c == ((c / 0x1000 % 16 * 16 + c / 0x100 % 16) * 16 + c / 16 % 16) * 16 + c % 16
  {
    var a := c / 16;
    assert c / 0x100 == a / 16 && c / 0x1000 == a / 16 / 16 < 16;
    assert c == a * 16 + c % 16 && a == a / 16 * 16 + a % 16;
    assert a / 16 == a / 16 / 16 * 16 + a / 16 % 16;
  }

  lemma HexIs(d: nat)
    requires d < 16
    ensures HexNumber(HexDigit(d)) == Some(d)
  {}

  /** A surrogate pair is written as it is. */
  lemma PairVerbatim(high: CodeUnit, low: CodeUnit)
    requires 0xd800 <= high <= 0xdbff && 0xdc00 <= low <= 0xdfff
    ensures Canonical(String([high, low])) == Some([0x22, high, low, 0x22])
  {
    var t := [high, low];
    assert t[2..] == [] && t[..2] == t;
    assert Escape(t) == t + Escape(t[2..]);
    assert Escape(t) == t;
    assert [0x22] + t + [0x22] == [0x22, high, low, 0x22];
  }

  lemma ChunkJoin(a: Text, b: Text)
    requires |a| > 0 && !(|b| > 0 && IsHigh(a[|a| - 1]) && IsLow(b[0]))
    ensures
      var n := ChunkSize(a);
      ChunkSize(a + b) == n && n <= |a| && Chunk(a + b) == Chunk(a) && (a + b)[n..] == a[n..] + b
  {
    hide EscapeUnit;
    assert StartsWithPair(a + b) == StartsWithPair(a);
  }

  lemma EscapeFirst(t: Text)
    requires |t| > 0
    ensures Escape(t) == Chunk(t) + Escape(t[ChunkSize(t)..])
  {}

  lemma {:induction false} EscapeJoin(a: Text, b: Text)
    requires !(|a| > 0 && |b| > 0 && IsHigh(a[|a| - 1]) && IsLow(b[0]))
    ensures Escape(a + b) == Escape(a) + Escape(b)
    decreases |a|
  {
    if |a| == 0 {
      assert a + b == b;
    } else {
      hide Escape, Chunk, ChunkSize;
      var n := ChunkSize(a);
      ChunkJoin(a, b);
      EscapeFirst(a);
      EscapeFirst(a + b);
      PositiveSize(a);
      EscapeJoin(a[n..], b);
      Associative(Chunk(a), Escape(a[n..]), Escape(b));
    }
  }

  lemma Associative(a: Text, b: Text, c: Text)
    ensures a + (b + c) == (a + b) + c
  {}

  lemma PositiveSize(t: Text)
    ensures ChunkSize(t) > 0
  {}

  /** What stands between the quotation marks. */
  function Inside(t: Text): Text
    requires |t| >= 2
  {
    t[1..|t| - 1]
  }

  /** Texts are written part by part, unless they are cut in the middle of a pair; so these laws say how
      every text is written. */
  lemma TextByParts(a: Text, b: Text)
    requires !(|a| > 0 && |b| > 0 && IsHigh(a[|a| - 1]) && IsLow(b[0]))
    ensures
      var (x, y) := (Canonical(String(a)), Canonical(String(b)));
      && x.Some? && |x.value| >= 2 && y.Some? && |y.value| >= 2
      && Canonical(String(a + b)) == Some([0x22] + Inside(x.value) + Inside(y.value) + [0x22])
  {
    hide Escape;
    EscapeJoin(a, b);
    assert Inside(Quote(a)) == Escape(a) && Inside(Quote(b)) == Escape(b);
    assert [0x22] + (Escape(a) + Escape(b)) + [0x22] == [0x22] + Escape(a) + Escape(b) + [0x22];
  }

  // ------------------------------------------------------- numbers and literals

  lemma Literals()
    ensures Canonical(Null) == Some(Ascii("null"))
    ensures Canonical(Bool(true)) == Some(Ascii("true")) && Canonical(Bool(false)) == Some(Ascii("false"))
  {
    assert Ascii("null") == [110, 117, 108, 108];
    assert Ascii("true") == [116, 114, 117, 101];
    assert Ascii("false") == [102, 97, 108, 115, 101];
  }

  /** The value of a decimal numeral. */
  function Numeral(t: Text): int {
    if |t| == 0 then 0 else 10 * Numeral(t[..|t| - 1]) + (t[|t| - 1] - 0x30)
  }

  lemma {:induction false} DigitsAre(n: nat)
    ensures Numeral(Digits(n)) == n
  {
    if n >= 10 {
      var t := Digits(n);
      assert t[..|t| - 1] == Digits(n / 10) && t[|t| - 1] == 0x30 + n % 10;
      DigitsAre(n / 10);
    } else {
      assert Digits(n)[..0] == [];
    }
  }

  /** A number is written in decimal, with a minus sign exactly when it is negative and no needless zero,
      if and only if it is a safe integer. */
  lemma NumberText(n: int)
    ensures Canonical(Number(n)).Some? <==> -9007199254740991 <= n <= 9007199254740991
    ensures Canonical(Number(n)).Some? ==>
      var t := Canonical(Number(n)).value;
      && |t| > 0 && (n < 0 <==> t[0] == 0x2d)
      && var digits := if n < 0 then t[1..] else t;
      && |digits| > 0 && (forall c | c in digits :: 0x30 <= c <= 0x39) && (digits[0] == 0x30 ==> digits == [0x30])
      && Numeral(digits) == if n < 0 then -n else n
  {
    DigitsAre(if n < 0 then -n else n);
    if n < 0 {
      assert PrintNumber(n)[1..] == Digits(-n);
    }
  }

  // --------------------------------------------------------- arrays and objects

  function Join(texts: seq<Text>): Text {
    if |texts| == 0 then [] else if |texts| == 1 then texts[0] else texts[0] + [0x2c] + Join(texts[1..])
  }

  predicate Writes(items: seq<Json>, texts: seq<Text>) {
    |texts| == |items| && forall i | 0 <= i < |items| :: Canonical(items[i]) == Some(texts[i])
  }

  lemma {:induction false} ItemsJoin(items: seq<Json>, texts: seq<Text>)
    requires Writes(items, texts)
    ensures CanonicalItems(items) == Some(Join(texts))
  {
    hide Canonical;
    if |items| > 0 {
      forall i | 0 <= i < |items[1..]| ensures Canonical(items[1..][i]) == Some(texts[1..][i]) {
        assert items[1..][i] == items[i + 1];
      }
      ItemsJoin(items[1..], texts[1..]);
    }
  }

  /** An array is the texts of its items, in order, with commas between and brackets around. */
  lemma ArrayText(items: seq<Json>, texts: seq<Text>)
    requires Writes(items, texts)
    ensures Canonical(Array(items)) == Some([0x5b] + Join(texts) + [0x5d])
  {
    hide CanonicalItems, Writes;
    ItemsJoin(items, texts);
  }

  /** Order of code units: the first difference decides, and a proper prefix comes first. */
  predicate Precedes(a: Text, b: Text) {
    || (|a| < |b| && a == b[..|a|])
    || exists k | 0 <= k < |a| && k < |b| :: DiffersAt(a, b, k)
  }

  predicate DiffersAt(a: Text, b: Text, k: nat)
    requires k < |a| && k < |b|
  {
    a[..k] == b[..k] && a[k] < b[k]
  }

  lemma {:induction false} LessPrecedes(a: Text, b: Text)
    ensures Less(a, b) ==> Precedes(a, b)
  {
    if |a| > 0 && |b| > 0 && Less(a, b) {
      if a[0] < b[0] {
        assert DiffersAt(a, b, 0);
      } else {
        LessPrecedes(a[1..], b[1..]);
        if |a[1..]| < |b[1..]| && a[1..] == b[1..][..|a[1..]|] {
          assert a == [a[0]] + a[1..] && b[..|a|] == [b[0]] + b[1..][..|a| - 1];
        } else {
          var k :| 0 <= k < |a[1..]| && k < |b[1..]| && DiffersAt(a[1..], b[1..], k);
          assert a[..k + 1] == [a[0]] + a[1..][..k] && b[..k + 1] == [b[0]] + b[1..][..k];
          assert DiffersAt(a, b, k + 1);
        }
      }
    }
  }

  /** The members as they are written: the defined ones, by their keys in the order of code units. */
  ghost predicate InOrder(members: seq<Member>, sorted: seq<Member>) {
    && (forall m :: m in sorted <==> m in members && m.value != Undefined)
    && forall i, j | 0 <= i < j < |sorted| :: Precedes(sorted[i].key, sorted[j].key)
  }

  predicate WritesMember(m: Member, text: Text) {
    Canonical(m.value).Some? && Canonical(String(m.key)).Some?
    && text == Canonical(String(m.key)).value + [0x3a] + Canonical(m.value).value
  }

  predicate WritesMembers(sorted: seq<Member>, texts: seq<Text>) {
    |texts| == |sorted| && forall i | 0 <= i < |sorted| :: WritesMember(sorted[i], texts[i])
  }

  lemma {:induction false} MembersJoin(owner: Json, members: seq<Member>, texts: seq<Text>)
    requires (forall m | m in members :: m.value < owner) && WritesMembers(members, texts)
    ensures CanonicalMembers(owner, members) == Some(Join(texts))
    decreases |members|
  {
    if |members| > 0 {
      assert members[0] in members && forall m | m in members[1..] :: m in members;
      assert WritesMember(members[0], texts[0]);
      hide Canonical;
      forall i | 0 <= i < |members[1..]| ensures WritesMember(members[1..][i], texts[1..][i]) {
        assert WritesMember(members[i + 1], texts[i + 1]);
      }
      MembersJoin(owner, members[1..], texts[1..]);
      KeyText(members[0].key);
    }
  }

  lemma KeyText(key: Text)
    ensures Canonical(String(key)) == Some(Quote(key))
  {}

  /** An object is its defined members, sorted by key, each as key, colon and value, with commas between and
      braces around; and that is its only text. */
  lemma ObjectText(members: seq<Member>) returns (sorted: seq<Member>)
    requires DistinctKeys(members)
    ensures InOrder(members, sorted)
    ensures forall texts | WritesMembers(sorted, texts) ::
      Canonical(Object(members)) == Some([0x7b] + Join(texts) + [0x7d])
  {
    hide Canonical;
    sorted := Sorted(members);
    SortedIsSorted(members);
    forall i, j | 0 <= i < j < |sorted| ensures Precedes(sorted[i].key, sorted[j].key) {
      LessPrecedes(sorted[i].key, sorted[j].key);
    }
    forall texts | WritesMembers(sorted, texts)
      ensures Canonical(Object(members)) == Some([0x7b] + Join(texts) + [0x7d]) {
      MembersJoin(Object(members), sorted, texts);
      ObjectIs(members);
    }
  }

  lemma ObjectIs(members: seq<Member>)
    ensures
      var body := CanonicalMembers(Object(members), Sorted(members));
      Canonical(Object(members)) == match body case Some(t) => Some([0x7b] + t + [0x7d]) case None => None
  {}
}
