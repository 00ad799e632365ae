/**
 Strings as the programs see them: sequences of UTF-16 code units, so that lone
 surrogates, which JSON escapes and UTF-8 cannot carry, are ordinary values.
 */
module Strings {

  /** A UTF-16 code unit; `Units` says that a text holds nothing else. */
  type CodeUnit = int
  type Text = seq<CodeUnit>

  predicate Units(t: Text) {
    forall i | 0 <= i < |t| :: 0 <= t[i] < 0x10000
  }

  const MAX_SAFE_INTEGER := 9007199254740991

  predicate IsSafeInteger(n: int) {
    -MAX_SAFE_INTEGER <= n <= MAX_SAFE_INTEGER
  }

  /** The class [\u0000-\u001f\u007f] every validator refuses. */
  predicate IsControl(c: CodeUnit) {
    c <= 0x1f || c == 0x7f
  }

  predicate HasControl(t: Text) {
    exists i | 0 <= i < |t| :: IsControl(t[i])
  }

  predicate IsDigit(c: CodeUnit) {
    0x30 <= c <= 0x39
  }

  predicate IsHigh(c: CodeUnit) {
    0xd800 <= c <= 0xdbff
  }

  predicate IsLow(c: CodeUnit) {
    0xdc00 <= c <= 0xdfff
  }

  predicate StartsWithPair(t: Text) {
    |t| > 1 && IsHigh(t[0]) && IsLow(t[1])
  }

  /** No surrogate stands alone. */
  predicate Paired(t: Text) {
    if |t| == 0 then true
    else if StartsWithPair(t) then Paired(t[2..])
    else !IsHigh(t[0]) && !IsLow(t[0]) && Paired(t[1..])
  }

  lemma {:induction false} PairedAppend(a: Text, b: Text)
    requires Paired(a) && Paired(b)
    ensures Paired(a + b)
  {
    if |a| == 0 {
      assert a + b == b;
    } else if StartsWithPair(a) {
      PairedAppend(a[2..], b);
      assert (a + b)[2..] == a[2..] + b;
    } else {
      PairedAppend(a[1..], b);
      assert (a + b)[1..] == a[1..] + b;
    }
  }

  /** The code units of a string literal. */
  function Ascii(s: string): (t: Text)
    ensures |t| == |s| && Units(t)
    ensures forall i | 0 <= i < |s| :: t[i] == s[i] as int % 0x10000
  {
    seq(|s|, i requires 0 <= i < |s| => s[i] as int % 0x10000)
  }

  /** Code-unit order, which `<` on strings and the key sort use. */
  predicate Less(a: Text, b: Text) {
    if |b| == 0 then false
    else if |a| == 0 then true
    else a[0] < b[0] || (a[0] == b[0] && Less(a[1..], b[1..]))
  }

  lemma {:induction false} LessTotal(a: Text, b: Text)
    ensures Less(a, b) || a == b || Less(b, a)
    ensures !(Less(a, b) && Less(b, a))
    ensures Less(a, b) ==> a != b
  {
    if |a| > 0 && |b| > 0 && a[0] == b[0] {
      LessTotal(a[1..], b[1..]);
      assert a == [a[0]] + a[1..] && b == [b[0]] + b[1..];
    }
  }

  lemma {:induction false} LessTransitive(a: Text, b: Text, c: Text)
    requires Less(a, b) && Less(b, c)
    ensures Less(a, c)
  {
    if |a| > 0 && a[0] == b[0] == c[0] {
      LessTransitive(a[1..], b[1..], c[1..]);
    }
  }

  // Map keys are built by joining identifiers with NUL.  Identifiers hold no
  // control character, so the join loses nothing.

  predicate NoNul(t: Text) {
    forall i | 0 <= i < |t| :: t[i] != 0
  }

  function Join2(a: Text, b: Text): Text {
    a + [0] + b
  }

  function FirstNul(t: Text): nat {
    if |t| == 0 || t[0] == 0 then 0 else 1 + FirstNul(t[1..])
  }

  lemma {:induction false} FirstNulOfJoin(a: Text, b: Text)
    requires NoNul(a)
    ensures FirstNul(Join2(a, b)) == |a|
  {
    if |a| > 0 {
      FirstNulOfJoin(a[1..], b);
      assert Join2(a, b)[1..] == Join2(a[1..], b);
    }
  }

  lemma Join2Injective(a: Text, b: Text, c: Text, d: Text)
    requires NoNul(a) && NoNul(c)
    ensures Join2(a, b) == Join2(c, d) <==> a == c && b == d
  {
    FirstNulOfJoin(a, b);
    FirstNulOfJoin(c, d);
    var x, y := Join2(a, b), Join2(c, d);
    assert x[..|a|] == a && y[..|c|] == c;
    assert x[|a| + 1..] == b && y[|c| + 1..] == d;
  }

  lemma NoControlNoNul(t: Text)
    requires !HasControl(t)
    ensures NoNul(t)
  {
    forall i | 0 <= i < |t| ensures t[i] != 0 {
      assert !IsControl(t[i]);
    }
  }
}
