/** Reading what was printed: the strict reader's grammar inverts Print. */
module JsonRoundTrip {
  import opened Strings
  import opened Wrappers
  import opened Json

  /** Where a printed value may end: nothing after it could extend a number. */
  predicate Ends(rest: Text) {
    |rest| == 0 || rest[0] == COMMA || rest[0] == CLOSE_BRACE || rest[0] == CLOSE_BRACKET
  }

  lemma AppendAssociative(a: Text, b: Text, c: Text)
    ensures (a + b) + c == a + (b + c)
  {}

  /** What the reader sees after the first part of a printed text. */
  lemma DropPrefix(a: Text, b: Text)
    ensures (a + b)[|a|..] == b && (a + b)[..|a|] == a
  {}

  // ------------------------------------------------------------------ numbers

  lemma {:induction false} DigitRunStops(a: Text, rest: Text)
    requires forall i | 0 <= i < |a| :: IsDigit(a[i])
    requires |rest| == 0 || !IsDigit(rest[0])
    ensures DigitRun(a + rest) == |a|
  {
    if |a| > 0 {
      DigitRunStops(a[1..], rest);
      assert (a + rest)[1..] == a[1..] + rest;
    } else {
      assert a + rest == rest;
    }
  }

  lemma {:induction false} DecimalOfDigits(n: nat)
    ensures DecimalValue(Digits(n)) == n
  {
    var t := Digits(n);
    if n < 10 {
      assert t[..0] == [];
      assert DecimalValue(t[..0]) == 0;
    } else {
      DecimalOfDigits(n / 10);
      assert t[..|t| - 1] == Digits(n / 10);
    }
  }

  lemma PlainInteger(sign: Text, digits: Text, rest: Text)
    requires sign == [] || sign == [MINUS]
    requires |digits| > 0 && forall i | 0 <= i < |digits| :: IsDigit(digits[i])
    requires digits[0] == 0x30 ==> |digits| == 1
    requires Ends(rest)
    ensures IntegerLength(sign + (digits + rest)) == |sign + digits|
    ensures IntegerValue(sign + digits) == if sign == [] then DecimalValue(digits) else -DecimalValue(digits)
  {
    hide DigitRun, DecimalValue;
    var t := sign + (digits + rest);
    assert IsDigit(digits[0]);
    assert t[|sign|..] == digits + rest;
    assert t[|sign|] == digits[0];
    DigitRunStops(digits, rest);
    assert sign == [] ==> sign + digits == digits;
    assert sign == [MINUS] ==> (sign + digits)[1..] == digits;
  }

  /** A literal with no fraction and no exponent is read exactly. */
  lemma ParsePlainNumber(literal: Text, rest: Text, rounding: Rounding)
    requires |literal| > 0 && IntegerLength(literal + rest) == |literal| && Ends(rest)
    ensures ParseNumber(literal + rest, rounding)
         == if IsSafeInteger(IntegerValue(literal)) then Done(Number(IntegerValue(literal)), rest) else Fail
  {
    hide IntegerLength, IntegerValue, FractionLength, ExponentLength;
    DropPrefix(literal, rest);
    NoExtension(rest);
  }

  lemma NoExtension(rest: Text)
    requires Ends(rest)
    ensures FractionLength(rest) == 0 && ExponentLength(rest) == 0 && rest[0..] == rest
  {}

  lemma NumberRoundTrip(n: int, rest: Text, rounding: Rounding)
    requires IsSafeInteger(n) && Ends(rest)
    ensures ParseNumber(PrintNumber(n) + rest, rounding) == Done(Number(n), rest)
  {
    hide ParseNumber, IntegerLength, IntegerValue, DecimalValue, Digits;
    var magnitude: nat := if n < 0 then -n else n;
    var sign: Text := if n < 0 then [MINUS] else [];
    var digits := Digits(magnitude);
    DecimalOfDigits(magnitude);
    PlainInteger(sign, digits, rest);
    AppendAssociative(sign, digits, rest);
    assert [] + digits == digits;
    ParsePlainNumber(sign + digits, rest, rounding);
  }

  // ------------------------------------------------------------------ strings

  lemma HexDigitValue(d: nat)
    requires d < 16
    ensures HexValue(HexDigit(d)) == Some(d)
    ensures Plain(HexDigit(d))
  {}

  /** A code unit that stands for itself inside a literal. */
  predicate Plain(c: CodeUnit) {
    c != QUOTE && c != BACKSLASH && c >= 0x20
  }

  lemma {:induction false} ScanPlain(u: Text, n: nat)
    requires n <= |u| && forall i | 0 <= i < n :: Plain(u[i])
    ensures ScanString(u, false) == Shift(ScanString(u[n..], false), n)
  {
    if n > 0 {
      ScanPlain(u[1..], n - 1);
      assert u[1..][n - 1..] == u[n..];
    } else {
      assert u[n..] == u;
    }
  }

  lemma ScanEscaped(u: Text)
    requires |u| >= 2 && u[0] == BACKSLASH
    ensures ScanString(u, false) == Shift(ScanString(u[2..], false), 2)
  {
    assert u[1..][1..] == u[2..];
    assert ScanString(u[1..], true) == Shift(ScanString(u[2..], false), 1);
  }

  lemma ScanUnit(c: CodeUnit, e: Text, t: Text)
    requires e == EscapeUnit(c)
    ensures ScanString(e + t, false) == Shift(ScanString(t, false), |e|)
  {
    var u := e + t;
    if |e| == 1 {
      ScanPlain(u, 1);
      assert u[1..] == t;
    } else {
      ScanEscaped(u);
      if |e| == 6 {
        UnicodeEscapeShape(c);
        ScanPlain(u[2..], 4);
        assert u[2..][4..] == t;
      } else {
        assert u[2..] == t;
      }
    }
  }

  lemma HexParts(c: CodeUnit)
    requires 0 <= c < 0x10000
    ensures c / 0x1000 % 16 * 0x1000 + c / 0x100 % 16 * 0x100 + c / 16 % 16 * 16 + c % 16 == c
  {
    var a := c / 16;
    var b := a / 16;
    assert c / 0x100 == b;
    assert c / 0x1000 == b / 16 < 16;
    assert c == a * 16 + c % 16;
    assert a == b * 16 + a % 16;
    assert b == b / 16 * 16 + b % 16;
  }

  lemma UnicodeEscapeShape(c: CodeUnit)
    ensures |UnicodeEscape(c)| == 6
    ensures forall i | 2 <= i < 6 :: Plain(UnicodeEscape(c)[i])
    ensures HexValue(UnicodeEscape(c)[2]) == Some(c / 0x1000 % 16)
    ensures HexValue(UnicodeEscape(c)[3]) == Some(c / 0x100 % 16)
    ensures HexValue(UnicodeEscape(c)[4]) == Some(c / 16 % 16)
    ensures HexValue(UnicodeEscape(c)[5]) == Some(c % 16)
  {
    HexDigitValue(c / 0x1000 % 16);
    HexDigitValue(c / 0x100 % 16);
    HexDigitValue(c / 16 % 16);
    HexDigitValue(c % 16);
    var e := UnicodeEscape(c);
    assert e[2] == HexDigit(c / 0x1000 % 16) && e[3] == HexDigit(c / 0x100 % 16);
    assert e[4] == HexDigit(c / 16 % 16) && e[5] == HexDigit(c % 16);
  }

  function Prepend(c: CodeUnit, r: Option<Text>): Option<Text> {
    match r case Some(s) => Some([c] + s) case None => None
  }

  lemma UnescapeUnit(c: CodeUnit, e: Text, t: Text)
    requires 0 <= c < 0x10000 && e == EscapeUnit(c)
    ensures Unescape(e + t) == Prepend(c, Unescape(t))
  {
    var u := e + t;
    if |e| == 1 {
      assert u[1..] == t;
    } else if |e| == 6 {
      UnicodeEscapeShape(c);
      UnescapeHex(c, u);
      assert u[6..] == t;
    } else {
      assert u[2..] == t;
      assert SimpleEscape(u[1]) == Some(c) && u[1] != 0x75;
    }
  }

  lemma UnescapeHex(c: CodeUnit, u: Text)
    requires 0 <= c < 0x10000
    requires |u| >= 6 && u[0] == BACKSLASH && u[1] == 0x75
    requires HexValue(u[2]) == Some(c / 0x1000 % 16) && HexValue(u[3]) == Some(c / 0x100 % 16)
    requires HexValue(u[4]) == Some(c / 16 % 16) && HexValue(u[5]) == Some(c % 16)
    ensures Unescape(u) == Prepend(c, Unescape(u[6..]))
  {
    HexParts(c);
  }

  lemma ScanChunk(s: Text, t: Text)
    requires |s| > 0
    ensures ScanString(Chunk(s) + t, false) == Shift(ScanString(t, false), |Chunk(s)|)
  {
    if StartsWithPair(s) {
      ScanPlain(s[..2] + t, 2);
      assert (s[..2] + t)[2..] == t;
    } else {
      ScanUnit(s[0], EscapeUnit(s[0]), t);
    }
  }

  lemma UnescapeChunk(s: Text, t: Text, rest: Text)
    requires |s| > 0 && Units(s)
    requires Unescape(t) == Some(rest)
    ensures Unescape(Chunk(s) + t) == Some(s[..ChunkSize(s)] + rest)
  {
    if StartsWithPair(s) {
      var u := s[..2] + t;
      assert u[1..][1..] == t;
      assert Unescape(u[1..]) == Some([s[1]] + rest);
      assert Unescape(u) == Some([s[0]] + ([s[1]] + rest));
      assert [s[0]] + ([s[1]] + rest) == s[..2] + rest;
    } else {
      UnescapeUnit(s[0], EscapeUnit(s[0]), t);
      assert s[..1] == [s[0]];
    }
  }

  lemma {:induction false} UnescapeEscape(s: Text)
    requires Units(s)
    ensures Unescape(Escape(s)) == Some(s)
  {
    if |s| > 0 {
      var n := ChunkSize(s);
      UnescapeEscape(s[n..]);
      UnescapeChunk(s, Escape(s[n..]), s[n..]);
      assert s == s[..n] + s[n..];
    }
  }

  lemma {:induction false} ScanEscape(s: Text, tail: Text)
    requires |tail| > 0 && tail[0] == QUOTE
    ensures ScanString(Escape(s) + tail, false) == Some(|Escape(s)| + 1)
  {
    hide Chunk;
    if |s| == 0 {
      assert Escape(s) + tail == tail;
    } else {
      var e := Escape(s[ChunkSize(s)..]);
      ScanEscape(s[ChunkSize(s)..], tail);
      ScanChunk(s, e + tail);
      AppendAssociative(Chunk(s), e, tail);
    }
  }

  lemma StringRoundTrip(s: Text, rest: Text, limits: Limits)
    requires Units(s)
    ensures ParseString(Quote(s) + rest, limits)
         == if limits.RefusesText(s) then Fail else Done(s, rest)
  {
    hide Escape, ScanString, Unescape;
    var e := Escape(s);
    var t := [QUOTE] + e + [QUOTE] + rest;
    UnescapeEscape(s);
    ScanEscape(s, [QUOTE] + rest);
    assert t[1..] == e + ([QUOTE] + rest);
    assert t[1..|e| + 1] == e;
    assert t[|e| + 2..] == rest;
  }

  // ------------------------------------------------------------ nested values

  /** What the reader accepts of a clean value at this depth: exactly its nesting, array,
      control-character and prototype-key bounds. */
  predicate Fits(v: Json, depth: int, limits: Limits)
    decreases v
  {
    !limits.TooDeep(depth) &&
    match v
    case String(s) => !limits.RefusesText(s)
    case Array(items) => !limits.TooMany(|items|) && ItemsFit(items, depth + 1, limits)
    case Object(members) => MembersFit(members, depth + 1, limits)
    case _ => true
  }

  predicate ItemsFit(items: seq<Json>, depth: int, limits: Limits)
    decreases items
  {
    forall item | item in items :: Fits(item, depth, limits)
  }

  predicate MembersFit(members: seq<Member>, depth: int, limits: Limits)
    decreases members
  {
    forall m | m in members :: m.value != Undefined ==> FitsMember(m, limits) && Fits(m.value, depth, limits)
  }

  lemma ItemsFitCons(items: seq<Json>, depth: int, limits: Limits)
    requires |items| > 0
    ensures ItemsFit(items, depth, limits) <==> Fits(items[0], depth, limits) && ItemsFit(items[1..], depth, limits)
  {
    assert items == [items[0]] + items[1..];
  }

  lemma MembersFitCons(members: seq<Member>, depth: int, limits: Limits)
    requires |members| > 0 && members[0].value != Undefined
    ensures MembersFit(members, depth, limits) <==>
      && FitsMember(members[0], limits)
      && Fits(members[0].value, depth, limits)
      && MembersFit(members[1..], depth, limits)
  {
    assert members == [members[0]] + members[1..];
  }

  predicate FitsMember(m: Member, limits: Limits) {
    !limits.RefusesText(m.key) && !limits.RefusesKey(m.key)
  }

  /** The first character of a printed value chooses the reader's branch. */
  lemma PrintHead(v: Json)
    requires Clean(v)
    ensures |Print(v)| > 0 && !IsSpace(Print(v)[0])
    ensures Print(v)[0] == OPEN_BRACE <==> v.Object?
    ensures Print(v)[0] == OPEN_BRACKET <==> v.Array?
    ensures Print(v)[0] == QUOTE <==> v.String?
    ensures Print(v)[0] == 0x74 <==> v == Bool(true)
    ensures Print(v)[0] == 0x66 <==> v == Bool(false)
    ensures Print(v)[0] == 0x6e <==> v == Null
    ensures Print(v)[0] != CLOSE_BRACKET && Print(v)[0] != CLOSE_BRACE
  {
    if v.Number? {
      assert v.n >= 0 ==> IsDigit(Digits(v.n)[0]);
    }
  }

  lemma NoSpace(t: Text)
    requires |t| > 0 && !IsSpace(t[0])
    ensures SkipSpace(t) == t
  {}

  /** Reading what was printed gives the value and the text after it when the value fits the
      reader's bounds, and throws when it does not. */
  lemma {:induction false} ValueRoundTrip(v: Json, rest: Text, depth: int, limits: Limits, rounding: Rounding)
    requires Clean(v) && Ends(rest)
    ensures ParseValue(Print(v) + rest, depth, limits, rounding)
         == if Fits(v, depth, limits) then Done(v, rest) else Fail
    decreases v, 0
  {
    hide ParseNumber, ParseString, ParseObject, ParseArray, ParseItems, ParseMember, ParseMembers, PrintItems,
      PrintMembers, PrintNumber, Quote, SkipSpace, DistinctKeys, HasControl;
    var t := Print(v) + rest;
    PrintHead(v);
    assert t[0] == Print(v)[0];
    NoSpace(t);
    match v
    case Null => DropPrefix(NULL, rest);
    case Bool(b) => DropPrefix(if b then TRUE else FALSE, rest);
    case Number(n) => NumberRoundTrip(n, rest, rounding);
    case String(s) => StringRoundTrip(s, rest, limits);
    case Array(items) =>
      assert t[1..] == PrintItems(items) + ([CLOSE_BRACKET] + rest);
      if !limits.TooDeep(depth) {
        ArrayRoundTrip(items, rest, depth + 1, limits, rounding);
      }
    case Object(members) =>
      assert t[1..] == PrintMembers(members) + ([CLOSE_BRACE] + rest);
      if !limits.TooDeep(depth) {
        ObjectRoundTrip(members, rest, depth + 1, limits, rounding);
      }
  }

  lemma {:induction false} ArrayRoundTrip(items: seq<Json>, rest: Text, depth: int, limits: Limits, rounding: Rounding)
    requires forall item | item in items :: Clean(item)
    ensures ParseArray(PrintItems(items) + ([CLOSE_BRACKET] + rest), depth, limits, rounding)
         == if !limits.TooMany(|items|) && ItemsFit(items, depth, limits) then Done(Array(items), rest) else Fail
    decreases items, 2
  {
    hide Print, ParseValue, ParseItems, Fits, Clean, SkipSpace;
    var t := PrintItems(items) + ([CLOSE_BRACKET] + rest);
    if |items| == 0 {
      assert t == [CLOSE_BRACKET] + rest;
      NoSpace(t);
      assert t[1..] == rest;
    } else {
      PrintHead(items[0]);
      assert t[0] == Print(items[0])[0];
      NoSpace(t);
      ItemsRoundTrip(items, rest, depth, limits, rounding, []);
      assert [] + items == items;
    }
  }

  lemma {:induction false} ItemsRoundTrip(items: seq<Json>, rest: Text, depth: int, limits: Limits, rounding: Rounding,
                                          acc: seq<Json>)
    requires |items| > 0 && forall item | item in items :: Clean(item)
    ensures ParseItems(PrintItems(items) + ([CLOSE_BRACKET] + rest), depth, limits, rounding, acc)
         == if !limits.TooMany(|acc| + |items|) && ItemsFit(items, depth, limits)
            then Done(Array(acc + items), rest) else Fail
    decreases items, 1
  {
    hide Print, ParseValue, ParseItems, Fits, ItemsFit, Clean, SkipSpace;
    var head, tail := items[0], items[1..];
    var end := [CLOSE_BRACKET] + rest;
    var after := if |items| == 1 then end else [COMMA] + (PrintItems(tail) + end);
    assert PrintItems(items) + end == Print(head) + after;
    ValueRoundTrip(head, after, depth, limits, rounding);
    ItemStep(head, after, depth, limits, rounding, acc);
    ItemsFitCons(items, depth, limits);
    if |items| > 1 {
      ItemsRoundTrip(tail, rest, depth, limits, rounding, acc + [head]);
      assert (acc + [head]) + tail == acc + items;
      assert after[1..] == PrintItems(tail) + end;
    } else {
      NothingToFit(depth, limits);
      assert tail == [];
      assert acc + [head] == acc + items;
      assert after[1..] == rest;
    }
  }

  /** One turn of the reader's array loop. */
  lemma ItemStep(head: Json, after: Text, depth: int, limits: Limits, rounding: Rounding, acc: seq<Json>)
    requires Clean(head)
    requires |after| > 0 && (after[0] == CLOSE_BRACKET || after[0] == COMMA)
    requires ParseValue(Print(head) + after, depth, limits, rounding)
          == if Fits(head, depth, limits) then Done(head, after) else Fail
    ensures ParseItems(Print(head) + after, depth, limits, rounding, acc)
         == if !Fits(head, depth, limits) || limits.TooMany(|acc| + 1) then Fail
            else if after[0] == CLOSE_BRACKET then Done(Array(acc + [head]), after[1..])
            else ParseItems(after[1..], depth, limits, rounding, acc + [head])
  {
    hide Print, ParseValue, Clean, Fits, SkipSpace;
    NoSpace(after);
  }

  lemma NothingToFit(depth: int, limits: Limits)
    ensures ItemsFit([], depth, limits) && MembersFit([], depth, limits)
  {}

  lemma {:induction false} ObjectRoundTrip(members: seq<Member>, rest: Text, depth: int, limits: Limits,
                                           rounding: Rounding)
    requires DistinctKeys(members) && forall m | m in members :: Units(m.key) && Clean(m.value)
    ensures ParseObject(PrintMembers(members) + ([CLOSE_BRACE] + rest), depth, limits, rounding)
         == if MembersFit(members, depth, limits) then Done(Object(members), rest) else Fail
    decreases members, 2
  {
    hide Print, ParseValue, ParseMembers, Fits, Clean, SkipSpace, FitsMember, Escape;
    var t := PrintMembers(members) + ([CLOSE_BRACE] + rest);
    if |members| == 0 {
      assert t == [CLOSE_BRACE] + rest;
      NoSpace(t);
      assert t[1..] == rest;
    } else {
      assert t[0] == QUOTE;
      NoSpace(t);
      MembersRoundTrip(members, rest, depth, limits, rounding, []);
      assert [] + members == members;
    }
  }

  lemma {:induction false} MembersRoundTrip(members: seq<Member>, rest: Text, depth: int, limits: Limits,
                                            rounding: Rounding, acc: seq<Member>)
    requires |members| > 0 && DistinctKeys(members)
    requires forall m | m in members :: Units(m.key) && Clean(m.value)
    requires forall m | m in members :: !HasKey(acc, m.key)
    ensures ParseMembers(PrintMembers(members) + ([CLOSE_BRACE] + rest), depth, limits, rounding, acc)
         == if MembersFit(members, depth, limits) then Done(Object(acc + members), rest) else Fail
    decreases members, 1
  {
    hide Print, ParseValue, ParseMembers, Fits, MembersFit, Clean, SkipSpace, FitsMember, Quote;
    var head, tail := members[0], members[1..];
    var end := [CLOSE_BRACE] + rest;
    var after := if |members| == 1 then end else [COMMA] + (PrintMembers(tail) + end);
    assert PrintMembers(members) + end == Quote(head.key) + ([COLON] + (Print(head.value) + after));
    ValueRoundTrip(head.value, after, depth, limits, rounding);
    MemberStep(head, after, depth, limits, rounding, acc);
    CleanDefined(head.value);
    MembersFitCons(members, depth, limits);
    if |members| > 1 {
      KeysStayNew(members, acc);
      MembersRoundTrip(tail, rest, depth, limits, rounding, acc + [head]);
      assert (acc + [head]) + tail == acc + members;
      assert after[1..] == PrintMembers(tail) + end;
    } else {
      NothingToFit(depth, limits);
      assert tail == [];
      assert acc + [head] == acc + members;
      assert after[1..] == rest;
    }
  }

  lemma KeysStayNew(members: seq<Member>, acc: seq<Member>)
    requires |members| > 0 && DistinctKeys(members)
    requires forall m | m in members :: !HasKey(acc, m.key)
    ensures forall m | m in members[1..] :: !HasKey(acc + [members[0]], m.key)
    ensures DistinctKeys(members[1..])
  {
    var tail := members[1..];
    forall m | m in tail ensures !HasKey(acc + [members[0]], m.key) {
      var i :| 0 <= i < |tail| && tail[i] == m;
      assert members[i + 1] == m && m in members;
    }
    assert forall i | 0 <= i < |tail| :: tail[i] == members[i + 1];
  }

  /** One turn of the reader's object loop. */
  lemma MemberStep(m: Member, after: Text, depth: int, limits: Limits, rounding: Rounding, acc: seq<Member>)
    requires Units(m.key) && Clean(m.value) && !HasKey(acc, m.key)
    requires |after| > 0 && (after[0] == CLOSE_BRACE || after[0] == COMMA)
    requires ParseValue(Print(m.value) + after, depth, limits, rounding)
          == if Fits(m.value, depth, limits) then Done(m.value, after) else Fail
    ensures ParseMembers(Quote(m.key) + ([COLON] + (Print(m.value) + after)), depth, limits, rounding, acc)
         == if !(FitsMember(m, limits) && Fits(m.value, depth, limits)) then Fail
            else if after[0] == CLOSE_BRACE then Done(Object(acc + [m]), after[1..])
            else ParseMembers(after[1..], depth, limits, rounding, acc + [m])
  {
    hide Print, Quote, ParseValue, Clean, Fits, ParseString, HasControl, UnsafeKey, SkipSpace;
    var w := [COLON] + (Print(m.value) + after);
    var t := Quote(m.key) + w;
    assert t[0] == QUOTE by { QuoteHead(m.key); }
    NoSpace(t);
    StringRoundTrip(m.key, w, limits);
    NoSpace(w);
    assert w[1..] == Print(m.value) + after;
    NoSpace(after);
  }

  lemma CleanDefined(v: Json)
    requires Clean(v)
    ensures v != Undefined
  {}

  lemma QuoteHead(key: Text)
    ensures |Quote(key)| > 0 && Quote(key)[0] == QUOTE
  {}
}
