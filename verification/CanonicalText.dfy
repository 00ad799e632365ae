/** A canonical text survives UTF-8: its surrogates are paired and no byte order mark leads it. */
module CanonicalText {
  import opened Strings
  import opened Json
  import opened JsonRoundTrip
  import opened CanonicalForm

  /** Code units and every surrogate in a pair: what the UTF-8 encoder keeps unchanged. */
  predicate Encodable(t: Text) {
    Units(t) && Paired(t)
  }

  lemma EncodableAppend(a: Text, b: Text)
    requires Encodable(a) && Encodable(b)
    ensures Encodable(a + b)
  {
    PairedAppend(a, b);
  }

  lemma {:induction false} BasicEncodable(t: Text)
    requires forall i | 0 <= i < |t| :: 0 <= t[i] < 0xd800
    ensures Encodable(t)
  {
    if |t| > 0 {
      BasicEncodable(t[1..]);
    }
  }

  lemma EscapeUnitEncodable(c: CodeUnit)
    requires 0 <= c < 0x10000
    ensures Encodable(EscapeUnit(c))
  {
    if IsHigh(c) || IsLow(c) || c < 0xd800 {
      BasicEncodable(EscapeUnit(c));
    } else {
      assert EscapeUnit(c)[1..] == [];
    }
  }

  lemma {:induction false} EscapeEncodable(s: Text)
    requires Units(s)
    ensures Encodable(Escape(s))
  {
    hide EscapeUnit;
    if |s| > 0 {
      EscapeEncodable(s[ChunkSize(s)..]);
      if StartsWithPair(s) {
        assert s[..2][2..] == [];
      } else {
        EscapeUnitEncodable(s[0]);
      }
      EncodableAppend(Chunk(s), Escape(s[ChunkSize(s)..]));
    }
  }

  lemma QuoteEncodable(s: Text)
    requires Units(s)
    ensures Encodable(Quote(s))
  {
    EscapeEncodable(s);
    BasicEncodable([QUOTE]);
    EncodableAppend([QUOTE], Escape(s));
    EncodableAppend([QUOTE] + Escape(s), [QUOTE]);
  }

  lemma Bracketed(open: CodeUnit, body: Text, close: CodeUnit)
    requires Encodable(body) && 0 <= open < 0x80 && 0 <= close < 0x80
    ensures Encodable([open] + body + [close])
  {
    BasicEncodable([open]);
    BasicEncodable([close]);
    EncodableAppend([open], body);
    EncodableAppend([open] + body, [close]);
  }

  lemma {:induction false} PrintEncodable(v: Json)
    requires Clean(v)
    ensures Encodable(Print(v))
    decreases v
  {
    match v
    case Null => BasicEncodable(NULL);
    case Bool(b) => BasicEncodable(if b then TRUE else FALSE);
    case Number(n) =>
      var t := PrintNumber(n);
      var digits := Digits(if n < 0 then -n else n);
      assert forall i | 0 <= i < |digits| :: IsDigit(digits[i]);
      BasicEncodable(t);
    case String(s) => QuoteEncodable(s);
    case Array(items) =>
      ItemsEncodable(items);
      Bracketed(OPEN_BRACKET, PrintItems(items), CLOSE_BRACKET);
    case Object(members) =>
      MembersEncodable(members);
      Bracketed(OPEN_BRACE, PrintMembers(members), CLOSE_BRACE);
  }

  lemma {:induction false} ItemsEncodable(items: seq<Json>)
    requires forall item | item in items :: Clean(item)
    ensures Encodable(PrintItems(items))
    decreases items
  {
    hide Print, Clean;
    if |items| > 0 {
      PrintEncodable(items[0]);
      BasicEncodable([COMMA]);
      ItemsEncodable(items[1..]);
      EncodableAppend(Print(items[0]), [COMMA]);
      EncodableAppend(Print(items[0]) + [COMMA], PrintItems(items[1..]));
    }
  }

  lemma {:induction false} MembersEncodable(members: seq<Member>)
    requires forall m | m in members :: Units(m.key) && Clean(m.value)
    ensures Encodable(PrintMembers(members))
    decreases members
  {
    hide Print, Clean, Quote;
    if |members| > 0 {
      var m := members[0];
      PrintEncodable(m.value);
      QuoteEncodable(m.key);
      BasicEncodable([COLON]);
      BasicEncodable([COMMA]);
      MembersEncodable(members[1..]);
      EncodableAppend(Quote(m.key), [COLON]);
      EncodableAppend(Quote(m.key) + [COLON], Print(m.value));
      var head := Quote(m.key) + [COLON] + Print(m.value);
      EncodableAppend(head, [COMMA]);
      EncodableAppend(head + [COMMA], PrintMembers(members[1..]));
    }
  }

  /** Every canonical text is encodable, not empty, and starts with no byte order mark. */
  lemma CanonicalEncodable(v: Json)
    requires Printable(v) && WellFormed(v)
    ensures Canonical(v).Some?
    ensures Encodable(Canonical(v).value)
    ensures |Canonical(v).value| > 0 && Canonical(v).value[0] != 0xfeff
  {
    CanonicalIsPrint(v);
    NormIsClean(v);
    PrintEncodable(Norm(v));
    PrintHead(Norm(v));
  }
}
