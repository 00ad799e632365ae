/**
 What the strict reader's grammar accepts: white space, numbers as the longest match, strings as sequences of
 spelled code units, and arrays and objects as sequences of parts with marks between them.
 */
module JsonGrammar {
  import opened Strings
  import opened Wrappers
  import opened Json
  import opened JsonRoundTrip

  // -------------------------------------------------------------- white space

  /** White space and line ends of ECMAScript. */
  lemma SpaceExactly(c: CodeUnit)
    ensures IsSpace(c) <==>
      || c in {9, 10, 11, 12, 13, 32, 160, 5760, 8232, 8233, 8239, 8287, 12288, 65279}
      || (c >= 8192 && c <= 8202)
  {}

  lemma {:induction false} SkipRun(t: Text)
    ensures forall i | 0 <= i < |t| - |SkipSpace(t)| :: IsSpace(t[i])
  {
    hide IsSpace;
    if |t| > 0 && IsSpace(t[0]) {
      SkipRun(t[1..]);
      forall i | 1 <= i < |t| - |SkipSpace(t)| ensures IsSpace(t[i]) {
        assert t[i] == t[1..][i - 1];
      }
    }
  }

  /** What is skipped is the longest run of white space. */
  lemma SkipExactly(t: Text, u: Text)
    ensures SkipSpace(t) == u <==>
      && |u| <= |t| && u == t[|t| - |u|..] && (forall i | 0 <= i < |t| - |u| :: IsSpace(t[i]))
      && (|u| > 0 ==> !IsSpace(u[0]))
  {
    hide IsSpace, SkipSpace;
    SkipRun(t);
    var v := SkipSpace(t);
    assert |v| > 0 ==> v[0] == t[|t| - |v|];
    if |u| <= |t| && u == t[|t| - |u|..] {
      assert |u| > 0 ==> u[0] == t[|t| - |u|];
    }
  }

  lemma SkipTwice(t: Text)
    ensures SkipSpace(SkipSpace(t)) == SkipSpace(t)
  {
    hide IsSpace;
  }

  // ------------------------------------------------------------------ numbers

  predicate AllDigits(t: Text) {
    |t| > 0 && forall i | 0 <= i < |t| :: 0x30 <= t[i] && t[i] <= 0x39
  }

  function Unsigned(t: Text): Text {
    if |t| > 0 && t[0] == 0x2d then t[1..] else t
  }

  /** Zero, or digits that begin with another one; a minus sign may stand before. */
  predicate IsWhole(t: Text) {
    Unsigned(t) == [0x30] || (AllDigits(Unsigned(t)) && Unsigned(t)[0] != 0x30)
  }

  /** A point and digits. */
  predicate IsFraction(t: Text) {
    |t| > 1 && t[0] == 0x2e && AllDigits(t[1..])
  }

  /** The letter e, a sign or none, and digits. */
  predicate IsExponent(t: Text) {
    && |t| > 1 && (t[0] == 0x65 || t[0] == 0x45)
    && (AllDigits(t[1..]) || ((t[1] == 0x2b || t[1] == 0x2d) && AllDigits(t[2..])))
  }

  /** The longest beginning of the text that is one, or nothing. */
  ghost predicate Longest(t: Text, k: nat, belongs: Text -> bool) {
    k <= |t| && (k > 0 ==> belongs(t[..k])) && forall j | k < j <= |t| :: !belongs(t[..j])
  }

  lemma RunDigits(t: Text, k: nat)
    requires k <= |t|
    ensures AllDigits(t[..k]) <==> 0 < k <= DigitRun(t)
  {
    var run := DigitRun(t);
    if k > run {
      assert t[..k][run] == t[run];
    }
  }

  /** So many code units from the sign on are a whole number. */
  predicate WholeTo(t: Text, sign: nat, j: nat) {
    sign < j <= |t| && j - sign <= DigitRun(t[sign..]) && (t[sign] == 0x30 ==> j == sign + 1)
  }

  lemma WholePrefix(t: Text, sign: nat, j: nat)
    requires sign == (if |t| > 0 && t[0] == 0x2d then 1 else 0) && j <= |t|
    ensures IsWhole(t[..j]) <==> WholeTo(t, sign, j)
  {
    hide DigitRun, AllDigits;
    if sign < j {
      var u := t[sign..];
      assert Unsigned(t[..j]) == u[..j - sign] && u[..j - sign][0] == t[sign];
      RunDigits(u, j - sign);
      if t[sign] == 0x30 {
        RunDigits(u, 1);
        ZeroRuns(u);
      }
    } else {
      assert Unsigned(t[..j]) == [];
      NoDigits();
    }
  }

  lemma NoDigits()
    ensures !AllDigits([])
  {}

  lemma ZeroRuns(u: Text)
    requires |u| > 0 && u[0] == 0x30
    ensures DigitRun(u) > 0
  {}

  lemma WholeLongest(t: Text)
    ensures Longest(t, IntegerLength(t), IsWhole)
  {
    hide DigitRun, IsWhole;
    var sign := if |t| > 0 && t[0] == 0x2d then 1 else 0;
    forall j: nat | j <= |t| ensures IsWhole(t[..j]) <==> WholeTo(t, sign, j) {
      WholePrefix(t, sign, j);
    }
  }

  lemma FractionLongest(t: Text)
    ensures Longest(t, FractionLength(t), IsFraction)
  {
    hide DigitRun, AllDigits;
    forall j: nat | 1 < j <= |t| ensures AllDigits(t[..j][1..]) <==> j - 1 <= DigitRun(t[1..]) {
      assert t[..j][1..] == t[1..][..j - 1];
      RunDigits(t[1..], j - 1);
    }
  }

  lemma ExponentLongest(t: Text)
    ensures Longest(t, ExponentLength(t), IsExponent)
  {
    hide DigitRun, AllDigits;
    if |t| > 1 {
      forall j: nat | 1 < j <= |t| ensures AllDigits(t[..j][1..]) <==> j - 1 <= DigitRun(t[1..]) {
        assert t[..j][1..] == t[1..][..j - 1];
        RunDigits(t[1..], j - 1);
      }
      forall j: nat | 1 < j <= |t| ensures AllDigits(t[..j][2..]) <==> 2 < j && j - 2 <= DigitRun(t[2..]) {
        assert t[..j][2..] == t[2..][..j - 2];
        RunDigits(t[2..], j - 2);
      }
      NoSignRuns(t[1..]);
    }
  }

  lemma NoSignRuns(u: Text)
    requires |u| > 0
    ensures u[0] == 0x2b || u[0] == 0x2d ==> DigitRun(u) == 0
  {}

  lemma {:induction false} DigitsBack(u: Text)
    requires AllDigits(u) && (u[0] == 0x30 ==> |u| == 1)
    ensures DecimalValue(u) >= 0 && Digits(DecimalValue(u)) == u
  {
    var (front, last) := (u[..|u| - 1], u[|u| - 1]);
    if |u| == 1 {
      assert DecimalValue(front) == 0;
      assert u == [last];
    } else {
      DigitsBack(front);
      assert DecimalValue(front) > 0 by { FrontPositive(front); }
      assert u == front + [last];
    }
  }

  lemma FrontPositive(front: Text)
    requires AllDigits(front) && front[0] != 0x30 && DecimalValue(front) >= 0 && Digits(DecimalValue(front)) == front
    ensures DecimalValue(front) > 0
  {}

  /** The text is the number's decimal form; minus zero is zero. */
  predicate Means(t: Text, n: int) {
    t == PrintNumber(n) || (t == [0x2d, 0x30] && n == 0)
  }

  lemma WholeMeans(t: Text, n: int)
    requires IsWhole(t)
    ensures IntegerValue(t) == n <==> Means(t, n)
  {
    hide DecimalValue, Digits;
    var u := Unsigned(t);
    assert AllDigits(u) && (u[0] == 0x30 ==> |u| == 1);
    DigitsBack(u);
    var value := DecimalValue(u);
    if t[0] == 0x2d {
      assert t == [0x2d] + u && t[1..] == u;
    }
    MeansOne(t, u, value, n);
  }

  /** A number has one decimal form and each form one number. */
  lemma MeansOne(t: Text, u: Text, value: int, n: int)
    requires value >= 0 && AllDigits(u) && Digits(value) == u && (u[0] == 0x30 ==> |u| == 1)
    requires t == u || t == [0x2d] + u
    ensures Means(t, n) <==> n == if t == u then value else -value
  {
    hide Digits, DecimalValue;
    var m: nat := if n < 0 then -n else n;
    DecimalOfDigits(m);
    DecimalOfDigits(value);
    assert u[0] != 0x2d && Digits(m)[0] != 0x2d;
    if t != u {
      assert t[0] == 0x2d && t[1..] == u;
    }
    if PrintNumber(n) == t {
      assert n < 0 <==> t != u;
      assert n < 0 ==> PrintNumber(n)[1..] == Digits(m);
    }
    ZeroDigits(value);
  }

  lemma ZeroDigits(value: nat)
    ensures Digits(value) == [0x30] <==> value == 0
  {}

  /** Whole part, fraction and exponent, each as long as can be. */
  ghost predicate NumberAt(t: Text, a: nat, b: nat, c: nat) {
    && a + b + c <= |t| && Longest(t, a, IsWhole) && Longest(t[a..], b, IsFraction)
      && Longest(t[a + b..], c, IsExponent)
  }

  lemma LongestIsOne(t: Text, j: nat, k: nat, belongs: Text -> bool)
    requires Longest(t, j, belongs) && Longest(t, k, belongs)
    ensures j == k
  {}

  lemma LengthsAre(t: Text)
    ensures
      var (a, b) := (IntegerLength(t), FractionLength(t[IntegerLength(t)..]));
      NumberAt(t, a, b, ExponentLength(t[a + b..]))
  {
    hide IntegerLength, FractionLength, ExponentLength, Longest;
    var a := IntegerLength(t);
    var b := FractionLength(t[a..]);
    WholeLongest(t);
    FractionLongest(t[a..]);
    ExponentLongest(t[a + b..]);
  }

  /** A number is read as the longest match at the front, when it is a safe integer. */
  lemma NumberExactly(t: Text, rounding: Rounding, a: nat, b: nat, c: nat, v: Json, rest: Text)
    requires NumberAt(t, a, b, c)
    ensures ParseNumber(t, rounding) == Done(v, rest) <==>
      && a > 0 && rest == t[a + b + c..]
      && v.Number? && -9007199254740991 <= v.n && v.n <= 9007199254740991
      && if b + c == 0 then Means(t[..a], v.n) else rounding(t[..a + b + c]) == Some(v.n)
  {
    hide IntegerLength, FractionLength, ExponentLength, IntegerValue, IsWhole, IsFraction, IsExponent, Means;
    LengthsAre(t);
    var (x, y) := (IntegerLength(t), FractionLength(t[IntegerLength(t)..]));
    LongestIsOne(t, a, x, IsWhole);
    LongestIsOne(t[a..], b, y, IsFraction);
    LongestIsOne(t[a + b..], c, ExponentLength(t[x + y..]), IsExponent);
    if a > 0 {
      WholeMeans(t[..a], IntegerValue(t[..a]));
      if v.Number? {
        WholeMeans(t[..a], v.n);
      }
    }
  }

  // ------------------------------------------------------------------ strings

  /** What the letter after a backslash stands for. */
  const SHORT: map<CodeUnit, CodeUnit> :=
    map[0x22 := 0x22, 0x5c := 0x5c, 0x2f := 0x2f, 0x62 := 0x08, 0x66 := 0x0c, 0x6e := 0x0a, 0x72 := 0x0d, 0x74 := 0x09]

  /** The digit at this place, in either case. */
  predicate HexIs(u: CodeUnit, value: int) {
    || (0 <= value < 10 && u == 0x30 + value)
    || (10 <= value < 16 && (u == 0x61 + value - 10 || u == 0x41 + value - 10))
  }

  predicate FourHex(d: Text, c: CodeUnit) {
    && |d| == 4 && 0 <= c < 0x10000
    && HexIs(d[0], c / 4096) && HexIs(d[1], c / 256 % 16) && HexIs(d[2], c / 16 % 16) && HexIs(d[3], c % 16)
  }

  /** As it is, with a short escape, or by its number. */
  predicate Writes(p: Text, c: CodeUnit) {
    || (p == [c] && c >= 0x20 && c != 0x22 && c != 0x5c)
    || (|p| == 2 && p[0] == 0x5c && p[1] in SHORT && SHORT[p[1]] == c)
    || (|p| == 6 && p[0] == 0x5c && p[1] == 0x75 && FourHex(p[2..], c))
  }

  /** The text writes the code units one after the other. */
  ghost predicate Spells(t: Text, s: Text)
    decreases |s|
  {
    if |s| == 0 then t == []
    else exists k: nat | k <= |t| :: Writes(t[..k], s[0]) && Spells(t[k..], s[1..])
  }

  lemma SpellsNext(p: Text, t: Text, c: CodeUnit, s: Text)
    requires Writes(p, c) && Spells(t, s)
    ensures Spells(p + t, [c] + s)
  {
    hide Writes;
    assert (p + t)[..|p|] == p && (p + t)[|p|..] == t && ([c] + s)[1..] == s;
  }

  lemma HexExactly(u: CodeUnit, value: int)
    ensures HexValue(u) == Some(value) <==> HexIs(u, value)
  {}

  lemma FourDigits(a: int, b: int, c: int, d: int)
    requires 0 <= a < 16 && 0 <= b < 16 && 0 <= c < 16 && 0 <= d < 16
    ensures
      var n := a * 0x1000 + b * 0x100 + c * 16 + d;
      0 <= n < 0x10000 && n / 4096 == a && n / 256 % 16 == b && n / 16 % 16 == c && n % 16 == d
  {
    var n := a * 0x1000 + b * 0x100 + c * 16 + d;
    assert n / 16 == a * 256 + b * 16 + c;
    assert n / 256 == a * 16 + b;
  }

  lemma DigitsOf(c: int)
    requires 0 <= c < 0x10000
    ensures c / 4096 * 0x1000 + c / 256 % 16 * 0x100 + c / 16 % 16 * 16 + c % 16 == c
    ensures c / 4096 < 16
  {
    var (x, y) := (c / 16, c / 256);
    assert y == x / 16 && c / 4096 == y / 16;
  }

  /** The value of an escape by number. */
  lemma FourExactly(d: Text, c: CodeUnit)
    requires |d| == 4
    ensures FourHex(d, c) <==>
      && HexValue(d[0]).Some? && HexValue(d[1]).Some? && HexValue(d[2]).Some? && HexValue(d[3]).Some?
      && c == HexValue(d[0]).value * 0x1000 + HexValue(d[1]).value * 0x100 + HexValue(d[2]).value * 16
              + HexValue(d[3]).value
  {
    hide HexValue, HexIs;
    if HexValue(d[0]).Some? && HexValue(d[1]).Some? && HexValue(d[2]).Some? && HexValue(d[3]).Some? {
      var (x, y, z, w) := (HexValue(d[0]).value, HexValue(d[1]).value, HexValue(d[2]).value, HexValue(d[3]).value);
      HexRange(d[0]);
      HexRange(d[1]);
      HexRange(d[2]);
      HexRange(d[3]);
      FourDigits(x, y, z, w);
      HexExactly(d[0], x);
      HexExactly(d[1], y);
      HexExactly(d[2], z);
      HexExactly(d[3], w);
    }
    if FourHex(d, c) {
      DigitsOf(c);
      HexExactly(d[0], c / 4096);
      HexExactly(d[1], c / 256 % 16);
      HexExactly(d[2], c / 16 % 16);
      HexExactly(d[3], c % 16);
    }
  }

  lemma HexRange(u: CodeUnit)
    ensures HexValue(u).Some? ==> 0 <= HexValue(u).value < 16
  {}

  lemma {:induction false} UnescapeSpells(t: Text)
    ensures Unescape(t).Some? ==> Spells(t, Unescape(t).value)
    decreases |t|
  {
    hide Writes, HexValue, SimpleEscape, Spells;
    if |t| == 0 {
      NothingSpelled();
    } else if Unescape(t).Some? {
      var s := Unescape(t).value;
      var k := if t[0] != BACKSLASH then 1 else if t[1] == 0x75 then 6 else 2;
      UnescapeSpells(t[k..]);
      FirstWritten(t, k);
      SpellsNext(t[..k], t[k..], s[0], s[1..]);
      assert t == t[..k] + t[k..] && s == [s[0]] + s[1..];
    }
  }

  lemma NothingSpelled()
    ensures Spells([], [])
  {}

  lemma FirstWritten(t: Text, k: nat)
    requires |t| > 0 && Unescape(t).Some? && k == if t[0] != BACKSLASH then 1 else if t[1] == 0x75 then 6 else 2
    ensures k <= |t| && |Unescape(t).value| > 0 && Writes(t[..k], Unescape(t).value[0])
    ensures Unescape(t[k..]) == Some(Unescape(t).value[1..])
  {
    hide HexValue, FourHex;
    if k == 6 {
      FourExactly(t[2..6], Unescape(t).value[0]);
      assert t[..6][2..] == t[2..6];
    }
  }

  lemma {:induction false} SpellsUnescape(t: Text, s: Text)
    requires Spells(t, s)
    ensures Unescape(t) == Some(s)
    decreases |s|
  {
    hide Writes, HexValue, SimpleEscape, Unescape;
    if |s| > 0 {
      var k: nat :| k <= |t| && Writes(t[..k], s[0]) && Spells(t[k..], s[1..]);
      SpellsUnescape(t[k..], s[1..]);
      WrittenFirst(t, k, s[0]);
      assert s == [s[0]] + s[1..];
    } else {
      UnescapeNothing();
    }
  }

  lemma UnescapeNothing()
    ensures Unescape([]) == Some([])
  {}

  lemma WrittenFirst(t: Text, k: nat, c: CodeUnit)
    requires k <= |t| && Writes(t[..k], c) && Unescape(t[k..]).Some?
    ensures Unescape(t) == Some([c] + Unescape(t[k..]).value)
  {
    hide Unescape, FourHex;
    assert forall i | 0 <= i < k :: t[..k][i] == t[i];
    if k == 1 {
      PlainFirst(t);
    } else if k == 2 {
      ShortFirst(t, c);
    } else {
      assert t[..6][2..] == t[2..6];
      NumberFirst(t, c);
    }
  }

  lemma PlainFirst(t: Text)
    requires |t| > 0 && t[0] >= 0x20 && t[0] != 0x22 && t[0] != 0x5c && Unescape(t[1..]).Some?
    ensures Unescape(t) == Some([t[0]] + Unescape(t[1..]).value)
  {}

  lemma ShortFirst(t: Text, c: CodeUnit)
    requires |t| > 1 && t[0] == 0x5c && t[1] in SHORT && SHORT[t[1]] == c && Unescape(t[2..]).Some?
    ensures Unescape(t) == Some([c] + Unescape(t[2..]).value)
  {}

  lemma NumberFirst(t: Text, c: CodeUnit)
    requires |t| > 5 && t[0] == 0x5c && t[1] == 0x75 && FourHex(t[2..6], c) && Unescape(t[6..]).Some?
    ensures Unescape(t) == Some([c] + Unescape(t[6..]).value)
  {
    hide HexValue, FourHex;
    FourExactly(t[2..6], c);
  }

  /** The text after an opening quote is scanned to the first quote that no backslash stands before. */
  lemma {:induction false} ScanSpelled(body: Text, s: Text, rest: Text)
    requires Spells(body, s)
    ensures ScanString(body + [QUOTE] + rest, false) == Some(|body| + 1)
    decreases |s|
  {
    hide ScanString, Writes;
    var t := body + [QUOTE] + rest;
    if |s| == 0 {
      assert t == [QUOTE] + rest;
      ScanQuote(t);
    } else {
      var k: nat :| k <= |body| && Writes(body[..k], s[0]) && Spells(body[k..], s[1..]);
      ScanSpelled(body[k..], s[1..], rest);
      assert t[k..] == body[k..] + [QUOTE] + rest && t[..k] == body[..k];
      ScanWritten(t, k, s[0]);
    }
  }

  lemma ScanQuote(t: Text)
    requires |t| > 0 && t[0] == QUOTE
    ensures ScanString(t, false) == Some(1)
  {}

  lemma ScanWritten(t: Text, k: nat, c: CodeUnit)
    requires k <= |t| && Writes(t[..k], c) && ScanString(t[k..], false).Some?
    ensures ScanString(t, false) == Some(k + ScanString(t[k..], false).value)
  {
    hide ScanString, FourHex;
    var p := t[..k];
    assert forall i | 0 <= i < k :: p[i] == t[i];
    if k == 1 {
      ScanOne(t);
    } else {
      ScanPastEscape(t);
      if k == 6 {
        HexPlain(p[2..], c);
        FourPlain(t);
      }
    }
  }

  lemma ScanOne(t: Text)
    requires |t| > 0 && t[0] >= 0x20 && t[0] != QUOTE && t[0] != BACKSLASH && ScanString(t[1..], false).Some?
    ensures ScanString(t, false) == Some(1 + ScanString(t[1..], false).value)
  {}

  lemma ScanPastEscape(t: Text)
    requires |t| > 1 && t[0] == BACKSLASH
    ensures ScanString(t[2..], false).Some? ==>
      ScanString(t, false) == Some(2 + ScanString(t[2..], false).value)
  {
    assert t[1..][1..] == t[2..];
  }

  lemma HexPlain(d: Text, c: CodeUnit)
    requires FourHex(d, c)
    ensures forall i | 0 <= i < 4 :: d[i] >= 0x20 && d[i] != QUOTE && d[i] != BACKSLASH
  {}

  lemma FourPlain(t: Text)
    requires |t| >= 6 && forall i | 2 <= i < 6 :: t[i] >= 0x20 && t[i] != QUOTE && t[i] != BACKSLASH
    requires ScanString(t[6..], false).Some?
    ensures ScanString(t[2..], false) == Some(4 + ScanString(t[6..], false).value)
  {
    ScanPlain(t[2..], 4);
    assert t[2..][4..] == t[6..];
  }

  lemma ScanEnds(t: Text)
    ensures ScanString(t, false).Some? ==>
      && var k := ScanString(t, false).value;
      0 < k <= |t| && t == t[..k - 1] + [QUOTE] + t[k..]
  {
    hide ScanString;
    if ScanString(t, false).Some? {
      SplitAt(t, ScanString(t, false).value);
    }
  }

  lemma SplitAt(t: Text, k: nat)
    requires 0 < k <= |t|
    ensures t == t[..k - 1] + [t[k - 1]] + t[k..]
  {}

  /** A string is a quote, a text that spells it, and a quote, and within limits it holds no control character. */
  lemma StringExactly(u: Text, limits: Limits, s: Text, rest: Text)
    requires |u| > 0
    ensures ParseString(u, limits) == Done(s, rest) <==>
      && (limits.Bounded? ==> !HasControl(s))
      && exists body :: u[1..] == body + [0x22] + rest && Spells(body, s)
  {
    hide ScanString, Unescape, Spells, HasControl;
    var t := u[1..];
    ScanEnds(t);
    if ScanString(t, false).Some? {
      var k := ScanString(t, false).value;
      assert u[1..k] == t[..k - 1] && u[k + 1..] == t[k..];
      UnescapeSpells(t[..k - 1]);
    }
    forall body | t == body + [0x22] + rest && Spells(body, s) ensures ScanString(t, false) == Some(|body| + 1)
      && t[..|body|] == body && t[|body| + 1..] == rest && Unescape(body) == Some(s) {
      ScanSpelled(body, s, rest);
      SpellsUnescape(body, s);
    }
  }

  // ------------------------------------------------------------------- values

  /** The three words. */
  predicate WordAt(t: Text, v: Json, rest: Text) {
    || (v == Bool(true) && t == Ascii("true") + rest)
    || (v == Bool(false) && t == Ascii("false") + rest)
    || (v == Null && t == Ascii("null") + rest)
  }

  lemma WordTexts()
    ensures Ascii("true") == TRUE && Ascii("false") == FALSE && Ascii("null") == NULL
  {}

  lemma StartsExactly(t: Text, word: Text, rest: Text)
    ensures StartsWith(t, word) && t[|word|..] == rest <==> t == word + rest
  {
    if StartsWith(t, word) {
      assert t == t[..|word|] + t[|word|..];
    }
    if t == word + rest {
      assert t[..|word|] == word && t[|word|..] == rest;
    }
  }

  lemma NumberHead(t: Text, rounding: Rounding)
    ensures ParseNumber(t, rounding).Done? ==> |t| > 0 && (IsDigit(t[0]) || t[0] == 0x2d)
  {}

  lemma ScalarExactly(t: Text, rounding: Rounding, v: Json, rest: Text)
    ensures ParseScalar(t, rounding) == Done(v, rest) <==>
      WordAt(t, v, rest) || ParseNumber(t, rounding) == Done(v, rest)
    ensures ParseScalar(t, rounding).Done? ==> |t| > 0 && t[0] !in {0x22, 0x5b, 0x5d, 0x7b}
  {
    hide ParseNumber;
    WordTexts();
    NumberHead(t, rounding);
    StartsExactly(t, TRUE, rest);
    StartsExactly(t, FALSE, rest);
    StartsExactly(t, NULL, rest);
  }

  /** How a value is read in a place: the text before it, the value and the text after it. */
  datatype Place = Place(depth: int, limits: Limits, rounding: Rounding) {
    function Within(): Place {
      Place(depth + 1, limits, rounding)
    }

    predicate TooDeep() {
      limits.Bounded? && depth > limits.depth
    }
  }

  /** From the one text on the value is read, and the other follows after white space. */
  predicate ReadsTo(p: Place, t: Text, v: Json, rest: Text) {
    var r := ParseValue(t, p.depth, p.limits, p.rounding);
    r.Done? && r.value == v && SkipSpace(r.rest) == rest
  }

  // ------------------------------------------------------------------- arrays

  /** An item, and the mark after it. */
  predicate ItemAt(p: Place, t: Text, item: Json, mark: CodeUnit, rest: Text) {
    ReadsTo(p, t, item, [mark] + rest)
  }

  /** Each item is read where the one before left off; commas stand between them and a bracket at the end. */
  ghost predicate ItemsAt(p: Place, t: Text, items: seq<Json>, rest: Text, cuts: seq<Text>) {
    && |items| > 0 && |cuts| == |items| + 1 && cuts[0] == t && cuts[|items|] == rest
    && forall i | 0 <= i < |items| :: ItemAt(p, cuts[i], items[i], if i == |items| - 1 then 0x5d else 0x2c, cuts[i + 1])
  }

  lemma FirstItem(p: Place, t: Text, items: seq<Json>, rest: Text, cuts: seq<Text>)
    requires |items| > 1 && |cuts| == |items| + 1
    ensures ItemsAt(p, t, items, rest, cuts) <==>
      cuts[0] == t && ItemAt(p, t, items[0], 0x2c, cuts[1]) && ItemsAt(p, cuts[1], items[1..], rest, cuts[1..])
  {
    hide ItemAt;
    if ItemsAt(p, t, items, rest, cuts) {
      forall i | 0 <= i < |items[1..]|
        ensures ItemAt(p, cuts[1..][i], items[1..][i], if i == |items[1..]| - 1 then 0x5d else 0x2c, cuts[1..][i + 1]) {
        assert ItemAt(p, cuts[i + 1], items[i + 1], if i + 1 == |items| - 1 then 0x5d else 0x2c, cuts[i + 2]);
      }
    }
    if cuts[0] == t && ItemAt(p, t, items[0], 0x2c, cuts[1]) && ItemsAt(p, cuts[1], items[1..], rest, cuts[1..]) {
      forall i | 0 <= i < |items|
        ensures ItemAt(p, cuts[i], items[i], if i == |items| - 1 then 0x5d else 0x2c, cuts[i + 1]) {
        if i > 0 {
          assert ItemAt(p, cuts[1..][i - 1], items[1..][i - 1], if i - 1 == |items[1..]| - 1 then 0x5d
            else 0x2c, cuts[1..][i]);
        }
      }
    }
  }

  /** The loop reads an item, and then ends or goes on. */
  lemma ItemStep(p: Place, t: Text, acc: seq<Json>, items: seq<Json>, rest: Text)
    ensures
      var r := ParseValue(t, p.depth, p.limits, p.rounding);
      ParseItems(t, p.depth, p.limits, p.rounding, acc) == Done(Array(acc + items), rest) <==>
        && r.Done? && (p.limits.Bounded? ==> |acc| + 1 <= p.limits.items) && |SkipSpace(r.rest)| > 0
        && var x := SkipSpace(r.rest);
        || (x[0] == 0x5d && items == [r.value] && rest == x[1..])
        || (x[0] == 0x2c && ParseItems(x[1..], p.depth, p.limits, p.rounding, acc + [r.value])
                            == Done(Array(acc + items), rest))
  {
    hide ParseValue, SkipSpace;
    var r := ParseValue(t, p.depth, p.limits, p.rounding);
    if r.Done? && acc + items == acc + [r.value] {
      assert items == (acc + items)[|acc|..] && [r.value] == (acc + [r.value])[|acc|..];
    }
  }

  /** The loop only adds items. */
  lemma {:induction false} ItemsGrow(p: Place, t: Text, acc: seq<Json>)
    ensures
      var r := ParseItems(t, p.depth, p.limits, p.rounding, acc);
      r.Done? ==> r.value.Array? && |r.value.items| > |acc| && r.value.items[..|acc|] == acc
    decreases |t|
  {
    hide ParseValue, SkipSpace;
    var v := ParseValue(t, p.depth, p.limits, p.rounding);
    if v.Done? {
      var x := SkipSpace(v.rest);
      SkipShortens(v.rest);
      if |x| > 0 && x[0] == COMMA {
        ItemsGrow(p, x[1..], acc + [v.value]);
        var r := ParseItems(x[1..], p.depth, p.limits, p.rounding, acc + [v.value]);
        if r.Done? {
          assert r.value.items[..|acc|] == r.value.items[..|acc| + 1][..|acc|];
        }
      }
      assert (acc + [v.value])[..|acc|] == acc;
    }
  }

  lemma SkipShortens(t: Text)
    ensures |SkipSpace(t)| <= |t|
  {}

  ghost predicate SomeItems(p: Place, t: Text, items: seq<Json>, rest: Text) {
    exists cuts :: ItemsAt(p, t, items, rest, cuts)
  }

  lemma OneItem(p: Place, t: Text, items: seq<Json>, rest: Text)
    requires |items| == 1
    ensures SomeItems(p, t, items, rest) <==> ItemAt(p, t, items[0], 0x5d, rest)
  {
    hide ItemAt;
    if ItemAt(p, t, items[0], 0x5d, rest) {
      assert ItemsAt(p, t, items, rest, [t, rest]);
    }
  }

  lemma MoreItems(p: Place, t: Text, items: seq<Json>, rest: Text)
    requires |items| > 1
    ensures SomeItems(p, t, items, rest) <==>
      exists next :: ItemAt(p, t, items[0], 0x2c, next) && SomeItems(p, next, items[1..], rest)
  {
    hide ItemAt, ItemsAt;
    if cuts :| ItemsAt(p, t, items, rest, cuts) {
      CutsLength(p, t, items, rest, cuts);
      FirstItem(p, t, items, rest, cuts);
      assert ItemAt(p, t, items[0], 0x2c, cuts[1]) && SomeItems(p, cuts[1], items[1..], rest);
    }
    if next :| ItemAt(p, t, items[0], 0x2c, next) && SomeItems(p, next, items[1..], rest) {
      var cuts :| ItemsAt(p, next, items[1..], rest, cuts);
      CutsLength(p, next, items[1..], rest, cuts);
      assert ([t] + cuts)[1..] == cuts;
      FirstItem(p, t, items, rest, [t] + cuts);
      assert ItemsAt(p, t, items, rest, [t] + cuts);
    }
  }

  lemma CutsLength(p: Place, t: Text, items: seq<Json>, rest: Text, cuts: seq<Text>)
    requires ItemsAt(p, t, items, rest, cuts)
    ensures |cuts| == |items| + 1 && cuts[0] == t
  {}

  /** The loop by its first item. */
  lemma ItemsLoop(p: Place, t: Text, acc: seq<Json>, items: seq<Json>, rest: Text)
    requires |items| > 0
    ensures ParseItems(t, p.depth, p.limits, p.rounding, acc) == Done(Array(acc + items), rest) <==>
      && var r := ParseValue(t, p.depth, p.limits, p.rounding);
      && r.Done? && r.value == items[0] && (p.limits.Bounded? ==> |acc| + 1 <= p.limits.items)
        && |SkipSpace(r.rest)| > 0
      && var x := SkipSpace(r.rest);
      if |items| == 1 then x[0] == 0x5d && x[1..] == rest
      else
        x[0] == 0x2c && ParseItems(x[1..], p.depth, p.limits, p.rounding, acc + [items[0]])
                        == Done(Array((acc + [items[0]]) + items[1..]), rest)
  {
    hide ParseValue, ParseItems, SkipSpace;
    var r := ParseValue(t, p.depth, p.limits, p.rounding);
    ItemStep(p, t, acc, items, rest);
    assert acc + items == (acc + [items[0]]) + items[1..];
    assert (acc + items)[|acc|] == items[0];
    if r.Done? && |SkipSpace(r.rest)| > 0 {
      ItemsGrow(p, SkipSpace(r.rest)[1..], acc + [r.value]);
      assert (acc + [r.value])[|acc|] == r.value;
      assert (acc + items)[..|acc| + 1] == acc + [items[0]];
    }
  }

  /** By the first of them. */
  lemma ItemsSplit(p: Place, t: Text, items: seq<Json>, rest: Text)
    requires |items| > 0
    ensures SomeItems(p, t, items, rest) <==>
      && var r := ParseValue(t, p.depth, p.limits, p.rounding);
      && r.Done? && r.value == items[0] && |SkipSpace(r.rest)| > 0
      && if |items| == 1 then SkipSpace(r.rest)[0] == 0x5d && SkipSpace(r.rest)[1..] == rest
         else SkipSpace(r.rest)[0] == 0x2c && SomeItems(p, SkipSpace(r.rest)[1..], items[1..], rest)
  {
    hide ParseValue, SkipSpace, SomeItems;
    MarkExactly(ParseValue(t, p.depth, p.limits, p.rounding), rest);
    if |items| == 1 {
      OneItem(p, t, items, rest);
    } else {
      MoreItems(p, t, items, rest);
    }
  }

  /** The loop reads exactly the items that stand one after the other, and within limits not too many. */
  lemma {:induction false} ItemsExactly(p: Place, t: Text, acc: seq<Json>, items: seq<Json>, rest: Text)
    ensures ParseItems(t, p.depth, p.limits, p.rounding, acc) == Done(Array(acc + items), rest) <==>
      && (p.limits.Bounded? ==> |acc| + |items| <= p.limits.items) && SomeItems(p, t, items, rest)
    decreases |items|
  {
    hide ParseValue, ParseItems, SkipSpace, SomeItems;
    if |items| == 0 {
      ItemsGrow(p, t, acc);
      assert acc + items == acc;
      NoItems(p, t, items, rest);
    } else {
      var r := ParseValue(t, p.depth, p.limits, p.rounding);
      ItemsLoop(p, t, acc, items, rest);
      ItemsSplit(p, t, items, rest);
      if |items| > 1 && r.Done? && |SkipSpace(r.rest)| > 0 {
        ItemsExactly(p, SkipSpace(r.rest)[1..], acc + [items[0]], items[1..], rest);
      }
    }
  }

  lemma NoItems(p: Place, t: Text, items: seq<Json>, rest: Text)
    requires |items| == 0
    ensures !SomeItems(p, t, items, rest)
  {}

  /** The text after white space begins with the mark. */
  lemma MarkExactly(r: Parsed<Json>, rest: Text)
    ensures r.Done? ==> forall mark: CodeUnit, next: Text ::
      SkipSpace(r.rest) == [mark] + next <==>
        |SkipSpace(r.rest)| > 0 && SkipSpace(r.rest)[0] == mark && SkipSpace(r.rest)[1..] == next
  {
    hide SkipSpace;
    if r.Done? {
      var x := SkipSpace(r.rest);
      forall mark: CodeUnit, next: Text
        ensures x == [mark] + next <==> |x| > 0 && x[0] == mark && x[1..] == next {
        if |x| > 0 {
          assert x == [x[0]] + x[1..];
        }
      }
    }
  }

  /** An array: nothing but white space up to the bracket, or items. */
  predicate EmptyAt(t: Text, mark: CodeUnit, rest: Text) {
    SkipSpace(t) == [mark] + rest
  }

  /** What a value is read as is told by its first character. */
  function Dispatched(p: Place, u: Text): Parsed<Json> {
    if |u| == 0 then ParseScalar(u, p.rounding)
    else if u[0] == OPEN_BRACE then ParseObject(u[1..], p.depth + 1, p.limits, p.rounding)
    else if u[0] == OPEN_BRACKET then ParseArray(u[1..], p.depth + 1, p.limits, p.rounding)
    else if u[0] == QUOTE then
      match ParseString(u, p.limits)
      case Fail => Fail
      case Done(s, rest) => Done(String(s), rest)
    else ParseScalar(u, p.rounding)
  }

  lemma Dispatches(p: Place, t: Text)
    ensures ParseValue(t, p.depth, p.limits, p.rounding) == if p.TooDeep() then Fail else Dispatched(p, SkipSpace(t))
  {
    hide SkipSpace, ParseScalar, ParseString, ParseArray, ParseObject;
  }

  lemma SpaceBefore(p: Place, t: Text)
    ensures ParseValue(SkipSpace(t), p.depth, p.limits, p.rounding) == ParseValue(t, p.depth, p.limits, p.rounding)
  {
    hide SkipSpace, ParseValue, Dispatched;
    SkipTwice(t);
    Dispatches(p, t);
    Dispatches(p, SkipSpace(t));
  }

  lemma BracketIsNoValue(p: Place, t: Text)
    requires |SkipSpace(t)| > 0 && SkipSpace(t)[0] == 0x5d
    ensures ParseValue(t, p.depth, p.limits, p.rounding).Fail?
  {
    hide SkipSpace, ParseScalar;
    ScalarExactly(SkipSpace(t), p.rounding, Null, []);
  }

  lemma ItemsFromSpace(p: Place, t: Text, items: seq<Json>, rest: Text)
    ensures SomeItems(p, SkipSpace(t), items, rest) <==> SomeItems(p, t, items, rest)
  {
    hide SkipSpace, ParseValue, ItemsAt;
    SpaceBefore(p, t);
    if |items| == 0 {
      NoItems(p, t, items, rest);
      NoItems(p, SkipSpace(t), items, rest);
    } else if |items| == 1 {
      OneItem(p, t, items, rest);
      OneItem(p, SkipSpace(t), items, rest);
    } else {
      MoreItems(p, t, items, rest);
      MoreItems(p, SkipSpace(t), items, rest);
    }
  }

  /** What an array holds is read from behind its bracket. */
  lemma ArrayExactly(p: Place, t: Text, items: seq<Json>, rest: Text)
    ensures ParseArray(t, p.depth, p.limits, p.rounding) == Done(Array(items), rest) <==>
      || (items == [] && EmptyAt(t, 0x5d, rest))
      || ((p.limits.Bounded? ==> |items| <= p.limits.items) && SomeItems(p, t, items, rest))
  {
    hide SkipSpace, ParseItems, ParseValue, SomeItems;
    var u := SkipSpace(t);
    ItemsExactly(p, u, [], items, rest);
    assert [] + items == items;
    ItemsFromSpace(p, t, items, rest);
    if |u| > 0 && u[0] == 0x5d {
      assert u == [u[0]] + u[1..];
      BracketIsNoValue(p, t);
      NothingRead(p, t, items, rest);
    }
  }

  lemma NothingRead(p: Place, t: Text, items: seq<Json>, rest: Text)
    requires ParseValue(t, p.depth, p.limits, p.rounding).Fail?
    ensures !SomeItems(p, t, items, rest)
  {
    hide ParseValue, SkipSpace;
    forall cuts ensures !ItemsAt(p, t, items, rest, cuts) {
      if |items| > 0 && |cuts| > 1 && cuts[0] == t {
        assert !ItemAt(p, cuts[0], items[0], if 0 == |items| - 1 then 0x5d else 0x2c, cuts[1]);
      }
    }
  }

  // ------------------------------------------------------------------ objects

  /** A name in quotes, a colon and a value, and what follows them. */
  ghost predicate FieldAt(p: Place, t: Text, m: Member, after: Text) {
    exists colon, w :: FieldParts(p, t, m, colon, w, after)
  }

  /** `colon` follows the name and `w` the colon. */
  predicate FieldParts(p: Place, t: Text, m: Member, colon: Text, w: Text, after: Text) {
    && |SkipSpace(t)| > 0 && SkipSpace(t)[0] == 0x22 && ParseString(SkipSpace(t), p.limits) == Done(m.key, colon)
    && SkipSpace(colon) == [0x3a] + w && ParseValue(w, p.depth, p.limits, p.rounding) == Done(m.value, after)
  }

  /** Names that every object inherits. */
  predicate Reserved(key: Text) {
    key == Ascii("__proto__") || key == Ascii("constructor") || key == Ascii("prototype")
  }

  lemma FieldExactly(p: Place, t: Text, acc: seq<Member>, m: Member, after: Text)
    ensures ParseMember(t, p.depth, p.limits, p.rounding, acc) == Done(m, after) <==>
      && FieldAt(p, t, m, after) && (forall x | x in acc :: x.key != m.key)
      && (p.limits.Bounded? ==> !Reserved(m.key))
  {
    hide SkipSpace, ParseString, ParseValue, Ascii;
    var u := SkipSpace(t);
    if |u| > 0 && u[0] == 0x22 && ParseString(u, p.limits).Done? {
      var colon := ParseString(u, p.limits).rest;
      var x := SkipSpace(colon);
      if |x| > 0 {
        assert x == [x[0]] + x[1..];
        assert FieldParts(p, t, m, colon, x[1..], after) <==>
          && m.key == ParseString(u, p.limits).value && x[0] == 0x3a
          && ParseValue(x[1..], p.depth, p.limits, p.rounding) == Done(m.value, after);
        forall c, w | FieldParts(p, t, m, c, w, after) ensures c == colon && w == x[1..] {
          assert ([0x3a] + w)[1..] == w;
        }
      }
    }
  }

  /** A property, and the mark after it. */
  ghost predicate MemberAt(p: Place, t: Text, m: Member, mark: CodeUnit, rest: Text) {
    exists after :: FieldAt(p, t, m, after) && SkipSpace(after) == [mark] + rest
  }

  /** Each property is read where the one before left off; commas stand between them and a brace at the end. */
  ghost predicate MembersAt(p: Place, t: Text, members: seq<Member>, rest: Text, cuts: seq<Text>) {
    && |members| > 0 && |cuts| == |members| + 1 && cuts[0] == t && cuts[|members|] == rest
    && forall i | 0 <= i < |members| ::
      MemberAt(p, cuts[i], members[i], if i == |members| - 1 then 0x7d else 0x2c, cuts[i + 1])
  }

  ghost predicate SomeMembers(p: Place, t: Text, members: seq<Member>, rest: Text) {
    exists cuts :: MembersAt(p, t, members, rest, cuts)
  }

  lemma NoMembers(p: Place, t: Text, members: seq<Member>, rest: Text)
    requires |members| == 0
    ensures !SomeMembers(p, t, members, rest)
  {}

  lemma OneMember(p: Place, t: Text, members: seq<Member>, rest: Text)
    requires |members| == 1
    ensures SomeMembers(p, t, members, rest) <==> MemberAt(p, t, members[0], 0x7d, rest)
  {
    hide MemberAt;
    if MemberAt(p, t, members[0], 0x7d, rest) {
      assert MembersAt(p, t, members, rest, [t, rest]);
    }
  }

  lemma FirstMember(p: Place, t: Text, members: seq<Member>, rest: Text, cuts: seq<Text>)
    requires |members| > 1 && |cuts| == |members| + 1
    ensures MembersAt(p, t, members, rest, cuts) <==>
      cuts[0] == t && MemberAt(p, t, members[0], 0x2c, cuts[1]) && MembersAt(p, cuts[1], members[1..], rest, cuts[1..])
  {
    hide MemberAt;
    var (tail, later) := (members[1..], cuts[1..]);
    if MembersAt(p, t, members, rest, cuts) {
      forall i | 0 <= i < |tail|
        ensures MemberAt(p, later[i], tail[i], if i == |tail| - 1 then 0x7d else 0x2c, later[i + 1]) {
        assert MemberAt(p, cuts[i + 1], members[i + 1], if i + 1 == |members| - 1 then 0x7d else 0x2c, cuts[i + 2]);
      }
    }
    if cuts[0] == t && MemberAt(p, t, members[0], 0x2c, cuts[1]) && MembersAt(p, cuts[1], tail, rest, later) {
      forall i | 0 <= i < |members|
        ensures MemberAt(p, cuts[i], members[i], if i == |members| - 1 then 0x7d else 0x2c, cuts[i + 1]) {
        if i > 0 {
          assert MemberAt(p, later[i - 1], tail[i - 1], if i - 1 == |tail| - 1 then 0x7d else 0x2c, later[i]);
        }
      }
    }
  }

  lemma MoreMembers(p: Place, t: Text, members: seq<Member>, rest: Text)
    requires |members| > 1
    ensures SomeMembers(p, t, members, rest) <==>
      exists next :: MemberAt(p, t, members[0], 0x2c, next) && SomeMembers(p, next, members[1..], rest)
  {
    hide MemberAt, MembersAt;
    if cuts :| MembersAt(p, t, members, rest, cuts) {
      MemberCuts(p, t, members, rest, cuts);
      FirstMember(p, t, members, rest, cuts);
      assert MemberAt(p, t, members[0], 0x2c, cuts[1]) && SomeMembers(p, cuts[1], members[1..], rest);
    }
    if next :| MemberAt(p, t, members[0], 0x2c, next) && SomeMembers(p, next, members[1..], rest) {
      var cuts :| MembersAt(p, next, members[1..], rest, cuts);
      MemberCuts(p, next, members[1..], rest, cuts);
      assert ([t] + cuts)[1..] == cuts;
      FirstMember(p, t, members, rest, [t] + cuts);
      assert MembersAt(p, t, members, rest, [t] + cuts);
    }
  }

  lemma MemberCuts(p: Place, t: Text, members: seq<Member>, rest: Text, cuts: seq<Text>)
    requires MembersAt(p, t, members, rest, cuts)
    ensures |cuts| == |members| + 1 && cuts[0] == t
  {}

  /** No name twice, among these and those before, and within limits no reserved one. */
  predicate NamesFit(p: Place, acc: seq<Member>, members: seq<Member>) {
    && (forall i | 0 <= i < |members| :: forall x | x in acc :: x.key != members[i].key)
    && (forall i, j | 0 <= i < j < |members| :: members[i].key != members[j].key)
    && (p.limits.Bounded? ==> forall i | 0 <= i < |members| :: !Reserved(members[i].key))
  }

  lemma NamesFitFirst(p: Place, acc: seq<Member>, members: seq<Member>)
    requires |members| > 0
    ensures NamesFit(p, acc, members) <==>
      && (forall x | x in acc :: x.key != members[0].key) && (p.limits.Bounded? ==> !Reserved(members[0].key))
      && NamesFit(p, acc + [members[0]], members[1..])
  {
    hide Reserved;
    var tail := members[1..];
    forall i | 0 <= i < |tail| ensures tail[i] == members[i + 1] {}
    if NamesFit(p, acc, members) {
      forall i, x | 0 <= i < |tail| && x in acc + [members[0]] ensures x.key != tail[i].key {}
    }
    if (forall x | x in acc :: x.key != members[0].key) && (p.limits.Bounded? ==> !Reserved(members[0].key))
       && NamesFit(p, acc + [members[0]], tail) {
      assert members[0] in acc + [members[0]];
      forall i, x | 0 <= i < |members| && x in acc ensures x.key != members[i].key {
        assert x in acc + [members[0]] && (i > 0 ==> members[i] == tail[i - 1]);
      }
      forall i, j | 0 <= i < j < |members| ensures members[i].key != members[j].key {
        assert members[j] == tail[j - 1] && (i > 0 ==> members[i] == tail[i - 1]);
      }
      forall i | 0 <= i < |members| && p.limits.Bounded? ensures !Reserved(members[i].key) {
        assert i > 0 ==> members[i] == tail[i - 1];
      }
    }
  }

  lemma {:induction false} MembersGrow(p: Place, t: Text, acc: seq<Member>)
    ensures
      var r := ParseMembers(t, p.depth, p.limits, p.rounding, acc);
      r.Done? ==> r.value.Object? && |r.value.members| > |acc| && r.value.members[..|acc|] == acc
    decreases |t|
  {
    hide ParseMember, SkipSpace;
    var m := ParseMember(t, p.depth, p.limits, p.rounding, acc);
    if m.Done? {
      var x := SkipSpace(m.rest);
      SkipShortens(m.rest);
      if |x| > 0 && x[0] == COMMA {
        MembersGrow(p, x[1..], acc + [m.value]);
        var r := ParseMembers(x[1..], p.depth, p.limits, p.rounding, acc + [m.value]);
        if r.Done? {
          assert r.value.members[..|acc|] == r.value.members[..|acc| + 1][..|acc|];
        }
      }
      assert (acc + [m.value])[..|acc|] == acc;
    }
  }

  lemma MemberStep(p: Place, t: Text, acc: seq<Member>, members: seq<Member>, rest: Text)
    ensures
      var r := ParseMember(t, p.depth, p.limits, p.rounding, acc);
      ParseMembers(t, p.depth, p.limits, p.rounding, acc) == Done(Object(acc + members), rest) <==>
        && r.Done? && |SkipSpace(r.rest)| > 0
        && var x := SkipSpace(r.rest);
        || (x[0] == 0x7d && members == [r.value] && rest == x[1..])
        || (x[0] == 0x2c && ParseMembers(x[1..], p.depth, p.limits, p.rounding, acc + [r.value])
                            == Done(Object(acc + members), rest))
  {
    hide ParseMember, SkipSpace;
    var r := ParseMember(t, p.depth, p.limits, p.rounding, acc);
    if r.Done? && acc + members == acc + [r.value] {
      assert members == (acc + members)[|acc|..] && [r.value] == (acc + [r.value])[|acc|..];
    }
  }

  /** The next property is the first that the loop reads, and the text after it begins with a mark. */
  lemma NextMember(p: Place, t: Text, acc: seq<Member>, m: Member, mark: CodeUnit, rest: Text)
    requires (forall x | x in acc :: x.key != m.key) && (p.limits.Bounded? ==> !Reserved(m.key))
    ensures
      var r := ParseMember(t, p.depth, p.limits, p.rounding, acc);
      MemberAt(p, t, m, mark, rest) <==>
        r.Done? && r.value == m && |SkipSpace(r.rest)| > 0 && SkipSpace(r.rest)[0] == mark
          && SkipSpace(r.rest)[1..] == rest
  {
    hide ParseMember, FieldAt, SkipSpace, Reserved;
    var r := ParseMember(t, p.depth, p.limits, p.rounding, acc);
    forall after: Text ensures r == Done(m, after) <==> FieldAt(p, t, m, after) {
      FieldExactly(p, t, acc, m, after);
    }
    if r.Done? && |SkipSpace(r.rest)| > 0 {
      assert SkipSpace(r.rest) == [SkipSpace(r.rest)[0]] + SkipSpace(r.rest)[1..];
    }
    if after :| FieldAt(p, t, m, after) && SkipSpace(after) == [mark] + rest {
      assert r == Done(m, after) && ([mark] + rest)[1..] == rest;
    }
  }

  /** The loop by its first property. */
  lemma MembersLoop(p: Place, t: Text, acc: seq<Member>, members: seq<Member>, rest: Text)
    requires |members| > 0
    ensures ParseMembers(t, p.depth, p.limits, p.rounding, acc) == Done(Object(acc + members), rest) <==>
      && var r := ParseMember(t, p.depth, p.limits, p.rounding, acc);
      && r.Done? && r.value == members[0] && |SkipSpace(r.rest)| > 0
      && var x := SkipSpace(r.rest);
      if |members| == 1 then x[0] == 0x7d && x[1..] == rest
      else
        x[0] == 0x2c && ParseMembers(x[1..], p.depth, p.limits, p.rounding, acc + [members[0]])
                        == Done(Object((acc + [members[0]]) + members[1..]), rest)
  {
    hide ParseMember, ParseMembers, SkipSpace;
    var r := ParseMember(t, p.depth, p.limits, p.rounding, acc);
    MemberStep(p, t, acc, members, rest);
    assert acc + members == (acc + [members[0]]) + members[1..];
    assert (acc + members)[|acc|] == members[0];
    if r.Done? && |SkipSpace(r.rest)| > 0 {
      var next := SkipSpace(r.rest)[1..];
      MembersGrow(p, next, acc + [r.value]);
      assert (acc + [r.value])[|acc|] == r.value;
      assert (acc + members)[..|acc| + 1] == acc + [members[0]];
    }
  }

  /** The loop reads exactly the properties that stand one after the other, with names that fit. */
  lemma {:induction false} MembersExactly(p: Place, t: Text, acc: seq<Member>, members: seq<Member>, rest: Text)
    ensures ParseMembers(t, p.depth, p.limits, p.rounding, acc) == Done(Object(acc + members), rest) <==>
      NamesFit(p, acc, members) && SomeMembers(p, t, members, rest)
    decreases |members|
  {
    hide ParseMember, ParseMembers, SkipSpace, SomeMembers, NamesFit, Reserved, FieldAt;
    if |members| == 0 {
      MembersGrow(p, t, acc);
      assert acc + members == acc;
      NoMembers(p, t, members, rest);
    } else {
      var r := ParseMember(t, p.depth, p.limits, p.rounding, acc);
      MembersLoop(p, t, acc, members, rest);
      MembersSplit(p, t, acc, members, rest);
      NamesFitFirst(p, acc, members);
      if r.Done? && r.value == members[0] && |SkipSpace(r.rest)| > 0 {
        FieldExactly(p, t, acc, r.value, r.rest);
        if |members| == 1 {
          NoNames(p, acc + [members[0]]);
          assert members[1..] == [];
        } else {
          MembersExactly(p, SkipSpace(r.rest)[1..], acc + [members[0]], members[1..], rest);
        }
      }
    }
  }

  lemma NoNames(p: Place, acc: seq<Member>)
    ensures NamesFit(p, acc, [])
  {}

  /** By the first of them. */
  lemma MembersSplit(p: Place, t: Text, acc: seq<Member>, members: seq<Member>, rest: Text)
    requires |members| > 0
    ensures NamesFit(p, acc, members) && SomeMembers(p, t, members, rest) <==>
      && NamesFit(p, acc, members)
      && var r := ParseMember(t, p.depth, p.limits, p.rounding, acc);
      && r.Done? && r.value == members[0] && |SkipSpace(r.rest)| > 0
      && if |members| == 1 then SkipSpace(r.rest)[0] == 0x7d && SkipSpace(r.rest)[1..] == rest
         else SkipSpace(r.rest)[0] == 0x2c && SomeMembers(p, SkipSpace(r.rest)[1..], members[1..], rest)
  {
    hide ParseMember, SkipSpace, SomeMembers, NamesFit, MemberAt, Reserved;
    if NamesFit(p, acc, members) {
      NamesFitFirst(p, acc, members);
      forall mark: CodeUnit, next: Text
        ensures
          var r := ParseMember(t, p.depth, p.limits, p.rounding, acc);
          MemberAt(p, t, members[0], mark, next) <==>
            && r.Done? && r.value == members[0] && |SkipSpace(r.rest)| > 0 && SkipSpace(r.rest)[0] == mark
            && SkipSpace(r.rest)[1..] == next {
        NextMember(p, t, acc, members[0], mark, next);
      }
      if |members| == 1 {
        OneMember(p, t, members, rest);
      } else {
        MoreMembers(p, t, members, rest);
      }
    }
  }

  lemma MembersFromSpace(p: Place, t: Text, members: seq<Member>, rest: Text)
    ensures SomeMembers(p, SkipSpace(t), members, rest) <==> SomeMembers(p, t, members, rest)
  {
    hide SkipSpace, MemberAt, SomeMembers;
    if |members| == 0 {
      NoMembers(p, t, members, rest);
      NoMembers(p, SkipSpace(t), members, rest);
    } else {
      forall mark: CodeUnit, next: Text
        ensures MemberAt(p, SkipSpace(t), members[0], mark, next) <==> MemberAt(p, t, members[0], mark, next) {
        MemberFromSpace(p, t, members[0], mark, next);
      }
      if |members| == 1 {
        OneMember(p, t, members, rest);
        OneMember(p, SkipSpace(t), members, rest);
      } else {
        MoreMembers(p, t, members, rest);
        MoreMembers(p, SkipSpace(t), members, rest);
      }
    }
  }

  lemma MemberFromSpace(p: Place, t: Text, m: Member, mark: CodeUnit, next: Text)
    ensures MemberAt(p, SkipSpace(t), m, mark, next) <==> MemberAt(p, t, m, mark, next)
  {
    hide SkipSpace, FieldAt;
    FieldFromSpace(p, t, m);
  }

  lemma FieldFromSpace(p: Place, t: Text, m: Member)
    ensures forall after :: FieldAt(p, SkipSpace(t), m, after) <==> FieldAt(p, t, m, after)
  {
    hide SkipSpace, ParseValue, ParseString;
    SkipTwice(t);
    forall after ensures FieldAt(p, SkipSpace(t), m, after) <==> FieldAt(p, t, m, after) {
      forall colon, w ensures FieldParts(p, SkipSpace(t), m, colon, w, after)
        <==> FieldParts(p, t, m, colon, w, after) {}
    }
  }

  /** What an object holds is read from behind its brace. */
  lemma ObjectExactly(p: Place, t: Text, members: seq<Member>, rest: Text)
    ensures ParseObject(t, p.depth, p.limits, p.rounding) == Done(Object(members), rest) <==>
      || (members == [] && EmptyAt(t, 0x7d, rest))
      || (NamesFit(p, [], members) && SomeMembers(p, t, members, rest))
  {
    hide SkipSpace, ParseMembers, ParseString, ParseValue, SomeMembers, NamesFit, MemberAt;
    var u := SkipSpace(t);
    MembersExactly(p, u, [], members, rest);
    assert [] + members == members;
    MembersFromSpace(p, t, members, rest);
    if |u| > 0 && u[0] == 0x7d {
      assert u == [u[0]] + u[1..];
      NothingNamed(p, t, members, rest);
    }
  }

  lemma NothingNamed(p: Place, t: Text, members: seq<Member>, rest: Text)
    requires |SkipSpace(t)| > 0 && SkipSpace(t)[0] == 0x7d
    ensures !SomeMembers(p, t, members, rest)
  {
    hide ParseValue, ParseString, SkipSpace;
    forall cuts ensures !MembersAt(p, t, members, rest, cuts) {
      if |members| > 0 && |cuts| > 1 && cuts[0] == t {
        assert !MemberAt(p, cuts[0], members[0], if 0 == |members| - 1 then 0x7d else 0x2c, cuts[1]);
      }
    }
  }

  /** What follows the white space is a word, a number, a string, an array or an object, and not too deep. */
  ghost predicate ValueAt(p: Place, u: Text, v: Json, rest: Text) {
    || WordAt(u, v, rest)
    || ParseNumber(u, p.rounding) == Done(v, rest)
    || (v.String? && |u| > 0 && u[0] == 0x22 && ParseString(u, p.limits) == Done(v.s, rest))
    || (v.Array? && |u| > 0 && u[0] == 0x5b && ArrayAt(p.Within(), u[1..], v.items, rest))
    || (v.Object? && |u| > 0 && u[0] == 0x7b && ObjectAt(p.Within(), u[1..], v.members, rest))
  }

  ghost predicate ArrayAt(p: Place, t: Text, items: seq<Json>, rest: Text) {
    || (items == [] && EmptyAt(t, 0x5d, rest))
    || ((p.limits.Bounded? ==> |items| <= p.limits.items) && SomeItems(p, t, items, rest))
  }

  ghost predicate ObjectAt(p: Place, t: Text, members: seq<Member>, rest: Text) {
    || (members == [] && EmptyAt(t, 0x7d, rest))
    || (NamesFit(p, [], members) && SomeMembers(p, t, members, rest))
  }

  lemma Compound(p: Place, t: Text)
    ensures
      var r := ParseArray(t, p.depth, p.limits, p.rounding);
      r.Done? ==> r.value.Array?
    ensures
      var r := ParseObject(t, p.depth, p.limits, p.rounding);
      r.Done? ==> r.value.Object?
  {
    hide SkipSpace, ParseItems, ParseMembers;
    ItemsGrow(p, SkipSpace(t), []);
    MembersGrow(p, SkipSpace(t), []);
  }

  /** A value is read exactly where one stands. */
  lemma ValueExactly(p: Place, t: Text, v: Json, rest: Text)
    ensures ParseValue(t, p.depth, p.limits, p.rounding) == Done(v, rest) <==>
      !p.TooDeep() && ValueAt(p, SkipSpace(t), v, rest)
  {
    hide SkipSpace, ParseScalar, ParseNumber, ParseString, ParseArray, ParseObject, SomeItems, SomeMembers, NamesFit,
      EmptyAt, WordAt;
    var u := SkipSpace(t);
    ScalarExactly(u, p.rounding, v, rest);
    if |u| > 0 {
      var q := p.Within();
      Compound(q, u[1..]);
      if v.Array? {
        ArrayExactly(q, u[1..], v.items, rest);
      }
      if v.Object? {
        ObjectExactly(q, u[1..], v.members, rest);
      }
      if WordAt(u, v, rest) || ParseNumber(u, p.rounding) == Done(v, rest) {
        ScalarOnly(u, p.rounding, v, rest);
      }
    }
  }

  /** Words and numbers begin with other characters. */
  lemma ScalarOnly(u: Text, rounding: Rounding, v: Json, rest: Text)
    requires WordAt(u, v, rest) || ParseNumber(u, rounding) == Done(v, rest)
    ensures |u| > 0 && u[0] !in {0x22, 0x5b, 0x5d, 0x7b} && !v.String? && !v.Array? && !v.Object?
  {
    hide ParseNumber;
    WordTexts();
    NumberHead(u, rounding);
    NumberOnly(u, rounding);
  }

  lemma NumberOnly(u: Text, rounding: Rounding)
    ensures ParseNumber(u, rounding).Done? ==> ParseNumber(u, rounding).value.Number?
  {}

  /** Nothing but white space. */
  predicate Blank(t: Text) {
    forall i | 0 <= i < |t| :: IsSpace(t[i])
  }

  lemma BlankExactly(t: Text)
    ensures |SkipSpace(t)| == 0 <==> Blank(t)
  {
    hide IsSpace, SkipSpace;
    SkipExactly(t, []);
    assert t[|t|..] == [];
  }

  /** A text is read as a value exactly when one stands in it with nothing but white space around. */
  lemma TextExactly(t: Text, limits: Limits, rounding: Rounding, v: Json)
    ensures Parse(t, limits, rounding) == Some(v) <==>
      && (limits.Bounded? ==> limits.depth >= 0)
      && exists rest :: ValueAt(Place(0, limits, rounding), SkipSpace(t), v, rest) && Blank(rest)
  {
    hide SkipSpace, ValueAt, ParseValue, Blank;
    var p := Place(0, limits, rounding);
    var r := ParseValue(t, 0, limits, rounding);
    if r.Done? {
      BlankExactly(r.rest);
      ValueExactly(p, t, v, r.rest);
    }
    forall rest | ValueAt(p, SkipSpace(t), v, rest) ensures p.TooDeep() || r == Done(v, rest) {
      ValueExactly(p, t, v, rest);
    }
  }

  /** The reader's limits: twelve levels and 256 items. */
  lemma ReaderExactly(t: Text, rounding: Rounding, v: Json)
    ensures Parse(t, READER_LIMITS, rounding) == Some(v) <==>
      exists rest :: ValueAt(Place(0, Bounded(12, 256), rounding), SkipSpace(t), v, rest) && Blank(rest)
  {
    hide SkipSpace, ValueAt, Parse, Blank;
    TextExactly(t, Bounded(12, 256), rounding, v);
  }
}
