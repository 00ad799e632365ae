/** The two decoders accept exactly what the encoders write, but for the spare bits and the byte order mark. */
module DecoderChecks {
  import opened Strings
  import opened Wrappers
  import opened Utf8
  import opened Base64Url

  // -------------------------------------------------------------------- UTF-8

  /** The units are one character, and the bytes before the cut are its encoding. */
  predicate IsFirst(bs: seq<int>, units: Text, size: nat) {
    && size <= |bs|
    && match |units|
       case 1 => 0 <= units[0] < 0x10000 && !IsHigh(units[0]) && !IsLow(units[0]) && bs[..size] == EncodePoint(units[0])
       case 2 => IsHigh(units[0]) && IsLow(units[1]) && bs[..size] == EncodePoint(PairPoint(units[0], units[1]))
       case _ => false
  }

  lemma ThreeBytes(x: int, y: int, z: int)
    requires 0 <= x < 16 && 0 <= y < 64 && 0 <= z < 64 && 0x800 <= x * 0x1000 + y * 0x40 + z
    ensures EncodePoint(x * 0x1000 + y * 0x40 + z) == [0xe0 + x, 0x80 + y, 0x80 + z]
  {
    var c := x * 0x1000 + y * 0x40 + z;
    assert c / 0x40 == x * 0x40 + y && c % 0x40 == z;
    assert c / 0x1000 == x && c / 0x40 % 0x40 == y;
  }

  lemma FourBytes(w: int, x: int, y: int, z: int)
    requires 0 <= w < 8 && 0 <= x < 64 && 0 <= y < 64 && 0 <= z < 64
    requires 0x10000 <= w * 0x40000 + x * 0x1000 + y * 0x40 + z
    ensures EncodePoint(w * 0x40000 + x * 0x1000 + y * 0x40 + z) == [0xf0 + w, 0x80 + x, 0x80 + y, 0x80 + z]
  {
    var c := w * 0x40000 + x * 0x1000 + y * 0x40 + z;
    assert c / 0x40 == w * 0x1000 + x * 0x40 + y && c % 0x40 == z;
    assert c / 0x1000 == w * 0x40 + x && c / 0x40 % 0x40 == y;
    assert c / 0x40000 == w && c / 0x1000 % 0x40 == x;
  }

  lemma PairOf(offset: int)
    requires 0 <= offset < 0x100000
    ensures
      var (high, low) := (0xd800 + offset / 0x400, 0xdc00 + offset % 0x400);
      IsHigh(high) && IsLow(low) && PairPoint(high, low) == 0x10000 + offset
  {}

  lemma FirstOfThree(bs: seq<int>)
    requires |bs| >= 3 && 0xe0 <= bs[0] <= 0xef && DecodeStep(bs).Step?
    ensures IsFirst(bs, DecodeStep(bs).units, DecodeStep(bs).size)
  {
    var (x, y, z) := (bs[0] - 0xe0, bs[1] - 0x80, bs[2] - 0x80);
    ThreeBytes(x, y, z);
    assert bs[..3] == [bs[0], bs[1], bs[2]];
  }

  lemma FirstOfFour(bs: seq<int>)
    requires |bs| >= 4 && 0xf0 <= bs[0] <= 0xf4 && DecodeStep(bs).Step?
    ensures IsFirst(bs, DecodeStep(bs).units, DecodeStep(bs).size)
  {
    var (w, x, y, z) := (bs[0] - 0xf0, bs[1] - 0x80, bs[2] - 0x80, bs[3] - 0x80);
    FourBytes(w, x, y, z);
    PairOf(w * 0x40000 + x * 0x1000 + y * 0x40 + z - 0x10000);
    assert bs[..4] == [bs[0], bs[1], bs[2], bs[3]];
  }

  lemma FirstDecoded(bs: seq<int>)
    requires |bs| > 0 && DecodeStep(bs).Step?
    ensures IsFirst(bs, DecodeStep(bs).units, DecodeStep(bs).size)
  {
    if bs[0] < 0x80 {
      assert bs[..1] == [bs[0]];
    } else if bs[0] <= 0xdf {
      var c := (bs[0] - 0xc0) * 0x40 + (bs[1] - 0x80);
      assert c / 0x40 == bs[0] - 0xc0 && c % 0x40 == bs[1] - 0x80;
      assert bs[..2] == [bs[0], bs[1]];
    } else if bs[0] <= 0xef {
      FirstOfThree(bs);
    } else {
      FirstOfFour(bs);
    }
  }

  lemma {:induction false} DecodedIsEncoded(bs: seq<int>)
    requires DecodeUnits(bs).Some?
    ensures
      var t := DecodeUnits(bs).value;
      Units(t) && Paired(t) && Encode(t) == bs
  {
    hide DecodeStep, EncodePoint, PairPoint;
    if |bs| > 0 {
      var Step(units, size) := DecodeStep(bs);
      FirstDecoded(bs);
      DecodedIsEncoded(bs[size..]);
      var rest := DecodeUnits(bs[size..]).value;
      var t := units + rest;
      assert bs == bs[..size] + bs[size..] && t[|units|..] == rest;
      if |units| == 1 {
        assert t[0] == units[0] && !StartsWithPair(t);
      } else {
        assert t[0] == units[0] && t[1] == units[1] && StartsWithPair(t);
      }
    }
  }

  /** Bytes decode to a text exactly when its surrogates are paired and they are its encoding, less a byte order
      mark in front. */
  lemma Utf8Exactly(bs: seq<int>, t: Text)
    ensures Decode(bs) == Some(t) <==>
      && Units(t) && Paired(t)
      && (bs == Encode([0xfeff] + t) || (bs == Encode(t) && !(|t| > 0 && t[0] == 0xfeff)))
  {
    hide Encode, DecodeUnits, Paired;
    if DecodeUnits(bs).Some? {
      DecodedIsEncoded(bs);
      var all := DecodeUnits(bs).value;
      if |all| > 0 && all[0] == 0xfeff {
        assert all == [0xfeff] + all[1..];
        MarkPaired(all[1..]);
      }
    }
    if Units(t) && Paired(t) {
      EncodeRoundTrip(t);
      RepairedIsSame(t);
      MarkPaired(t);
      EncodeRoundTrip([0xfeff] + t);
      RepairedIsSame([0xfeff] + t);
      assert ([0xfeff] + t)[1..] == t;
    }
  }

  lemma MarkPaired(t: Text)
    ensures Paired([0xfeff] + t) <==> Paired(t)
  {
    assert ([0xfeff] + t)[1..] == t;
  }

  // ---------------------------------------------------------------- base64url

  /** How many values of the last symbol stand for the same bits, in a text of this length. */
  function Spare(length: nat): nat {
    match length % 4 case 2 => 16 case 3 => 4 case _ => 1
  }

  /** Both symbols have values, the same but for the spare bits. */
  predicate Alike(c: CodeUnit, d: CodeUnit, spare: nat) {
    spare > 0 && SymbolValue(c).Some? && SymbolValue(d).Some?
    && SymbolValue(c).value / spare == SymbolValue(d).value / spare
  }

  /** The text is the encoding of the bytes, but for the spare bits of its last symbol. */
  predicate Spells(t: Text, bs: seq<int>) {
    && |t| == |EncodeBytes(bs)|
    && forall i | 0 <= i < |t| :: Alike(t[i], EncodeBytes(bs)[i], if i == |t| - 1 then Spare(|t|) else 1)
  }

  lemma SymbolAlike(c: CodeUnit, v: int, spare: nat)
    requires 0 <= v < 64 && spare > 0
    ensures Alike(c, Symbol(v), spare) <==> SymbolValue(c).Some? && SymbolValue(c).value / spare == v / spare
  {
    hide Symbol, SymbolValue;
    SymbolRoundTrip(v);
  }

  lemma ValueRange(c: CodeUnit)
    ensures SymbolValue(c).Some? ==> 0 <= SymbolValue(c).value < 64
  {}

  lemma {:induction false} EncodedLength(bs: seq<int>)
    ensures |EncodeBytes(bs)| == |bs| / 3 * 4 + if |bs| % 3 == 0 then 0 else |bs| % 3 + 1
  {
    hide Symbol;
    if |bs| >= 3 {
      EncodedLength(bs[3..]);
    }
  }

  lemma OneByte(p: int, q: int, a: int)
    requires 0 <= p < 64 && 0 <= q < 64 && 0 <= a < 256
    ensures p * 4 + q / 16 == a <==> p == a / 4 && q / 16 == a % 4 * 16 / 16
  {}

  lemma OneSpelled(t: Text, a: int)
    requires |t| == 2 && 0 <= a < 256
    ensures DecodeBytes(t) == Some([a]) <==> Spells(t, [a])
  {
    hide Symbol, SymbolValue, Alike, DecodeBytes;
    var w := EncodeBytes([a]);
    assert w == [Symbol(a / 4), Symbol(a % 4 * 16)];
    assert Spells(t, [a]) <==> Alike(t[0], w[0], 1) && Alike(t[1], w[1], 16);
    SymbolAlike(t[0], a / 4, 1);
    SymbolAlike(t[1], a % 4 * 16, 16);
    OneDecoded(t);
    if SymbolValue(t[0]).Some? && SymbolValue(t[1]).Some? {
      ValueRange(t[0]);
      ValueRange(t[1]);
      OneByte(SymbolValue(t[0]).value, SymbolValue(t[1]).value, a);
    }
  }

  lemma OneDecoded(t: Text)
    requires |t| == 2
    ensures DecodeBytes(t) ==
      if SymbolValue(t[0]).Some? && SymbolValue(t[1]).Some? then
        Some([SymbolValue(t[0]).value * 4 + SymbolValue(t[1]).value / 16])
      else None
  {
    hide SymbolValue, DecodeGroup;
    if SymbolValue(t[0]).Some? && SymbolValue(t[1]).Some? {
      GroupParts(SymbolValue(t[0]).value, SymbolValue(t[1]).value, 0);
    }
  }

  lemma GroupParts(p: int, q: int, r: int)
    ensures |DecodeGroup(p, q, 0, 0)| == 3 && DecodeGroup(p, q, 0, 0)[..1] == [p * 4 + q / 16]
    ensures |DecodeGroup(p, q, r, 0)| == 3 && DecodeGroup(p, q, r, 0)[..2] == [p * 4 + q / 16, q % 16 * 16 + r / 4]
  {}

  lemma TwoSpelled(t: Text, a: int, b: int)
    requires |t| == 3 && 0 <= a < 256 && 0 <= b < 256
    ensures DecodeBytes(t) == Some([a, b]) <==> Spells(t, [a, b])
  {
    hide Symbol, SymbolValue, Alike, DecodeBytes;
    var w := EncodeBytes([a, b]);
    assert w == [Symbol(a / 4), Symbol(a % 4 * 16 + b / 16), Symbol(b % 16 * 4)];
    assert Spells(t, [a, b]) <==> Alike(t[0], w[0], 1) && Alike(t[1], w[1], 1) && Alike(t[2], w[2], 4);
    SymbolAlike(t[0], a / 4, 1);
    SymbolAlike(t[1], a % 4 * 16 + b / 16, 1);
    SymbolAlike(t[2], b % 16 * 4, 4);
    TwoDecoded(t);
    if SymbolValue(t[0]).Some? && SymbolValue(t[1]).Some? && SymbolValue(t[2]).Some? {
      ValueRange(t[0]);
      ValueRange(t[1]);
      ValueRange(t[2]);
      TwoBytes(SymbolValue(t[0]).value, SymbolValue(t[1]).value, SymbolValue(t[2]).value, a, b);
    }
  }

  lemma TwoDecoded(t: Text)
    requires |t| == 3
    ensures DecodeBytes(t) ==
      if SymbolValue(t[0]).Some? && SymbolValue(t[1]).Some? && SymbolValue(t[2]).Some? then
        Some([SymbolValue(t[0]).value * 4 + SymbolValue(t[1]).value / 16,
              SymbolValue(t[1]).value % 16 * 16 + SymbolValue(t[2]).value / 4])
      else None
  {
    hide SymbolValue, DecodeGroup;
    if SymbolValue(t[0]).Some? && SymbolValue(t[1]).Some? && SymbolValue(t[2]).Some? {
      GroupParts(SymbolValue(t[0]).value, SymbolValue(t[1]).value, SymbolValue(t[2]).value);
    }
  }

  lemma TwoBytes(p: int, q: int, r: int, a: int, b: int)
    requires 0 <= p < 64 && 0 <= q < 64 && 0 <= r < 64 && 0 <= a < 256 && 0 <= b < 256
    ensures p * 4 + q / 16 == a && q % 16 * 16 + r / 4 == b <==>
      p == a / 4 && q == a % 4 * 16 + b / 16 && r / 4 == b % 16 * 4 / 4
  {}

  lemma GroupBits(p: int, q: int, r: int, s: int, a: int, b: int, c: int)
    requires 0 <= p < 64 && 0 <= q < 64 && 0 <= r < 64 && 0 <= s < 64
    requires 0 <= a < 256 && 0 <= b < 256 && 0 <= c < 256
    ensures DecodeGroup(p, q, r, s) == [a, b, c] <==>
      p == a / 4 && q == a % 4 * 16 + b / 16 && r == b % 16 * 4 + c / 64 && s == c % 64
  {
    TwoBytes(p, q, r, a, b);
    assert r % 4 * 64 + s == c <==> r % 4 == c / 64 && s == c % 64;
  }

  lemma FourSpelled(t: Text, a: int, b: int, c: int)
    requires |t| == 4 && 0 <= a < 256 && 0 <= b < 256 && 0 <= c < 256
    ensures
      (&& SymbolValue(t[0]).Some? && SymbolValue(t[1]).Some? && SymbolValue(t[2]).Some? && SymbolValue(t[3]).Some?
       && DecodeGroup(SymbolValue(t[0]).value, SymbolValue(t[1]).value, SymbolValue(t[2]).value,
                      SymbolValue(t[3]).value) == [a, b, c])
      <==> forall i | 0 <= i < 4 :: Alike(t[i], EncodeGroup(a, b, c)[i], 1)
  {
    hide Symbol, SymbolValue, Alike, DecodeGroup;
    SymbolAlike(t[0], a / 4, 1);
    SymbolAlike(t[1], a % 4 * 16 + b / 16, 1);
    SymbolAlike(t[2], b % 16 * 4 + c / 64, 1);
    SymbolAlike(t[3], c % 64, 1);
    var g := EncodeGroup(a, b, c);
    assert (forall i | 0 <= i < 4 :: Alike(t[i], g[i], 1)) <==>
      Alike(t[0], g[0], 1) && Alike(t[1], g[1], 1) && Alike(t[2], g[2], 1) && Alike(t[3], g[3], 1);
    if SymbolValue(t[0]).Some? && SymbolValue(t[1]).Some? && SymbolValue(t[2]).Some? && SymbolValue(t[3]).Some? {
      ValueRange(t[0]);
      ValueRange(t[1]);
      ValueRange(t[2]);
      ValueRange(t[3]);
      GroupBits(SymbolValue(t[0]).value, SymbolValue(t[1]).value, SymbolValue(t[2]).value, SymbolValue(t[3]).value,
                a, b, c);
    }
  }

  /** A longer text spells bytes when its first four symbols spell the first three and the rest the rest. */
  lemma SpellsMore(t: Text, bs: seq<int>)
    requires |t| >= 4 && |bs| >= 3
    ensures Spells(t, bs) <==>
      (forall i | 0 <= i < 4 :: Alike(t[i], EncodeGroup(bs[0], bs[1], bs[2])[i], 1)) && Spells(t[4..], bs[3..])
  {
    hide Symbol, SymbolValue, Alike, EncodeGroup;
    var (g, rest) := (EncodeGroup(bs[0], bs[1], bs[2]), EncodeBytes(bs[3..]));
    GroupLength(bs[0], bs[1], bs[2]);
    var w := EncodeBytes(bs);
    assert w == g + rest;
    assert Spare(4) == 1 && Spare(|t| - 4) == Spare(|t|);
    if Spells(t, bs) {
      forall i | 0 <= i < 4 ensures Alike(t[i], g[i], 1) {
        assert w[i] == g[i];
      }
      forall i | 0 <= i < |t[4..]|
        ensures Alike(t[4..][i], rest[i], if i == |t[4..]| - 1 then Spare(|t[4..]|) else 1) {
        assert w[i + 4] == rest[i] && t[4..][i] == t[i + 4];
      }
    }
    if (forall i | 0 <= i < 4 :: Alike(t[i], g[i], 1)) && Spells(t[4..], bs[3..]) {
      forall i | 0 <= i < |t| ensures Alike(t[i], w[i], if i == |t| - 1 then Spare(|t|) else 1) {
        if i >= 4 {
          assert w[i] == rest[i - 4] && t[4..][i - 4] == t[i];
        }
      }
    }
  }

  lemma GroupLength(a: int, b: int, c: int)
    ensures |EncodeGroup(a, b, c)| == 4
  {}

  /** A text decodes to bytes exactly when it is their encoding, but for the spare bits of its last symbol. */
  lemma {:induction false} Base64Exactly(t: Text, bs: seq<int>)
    requires Bytes(bs)
    ensures DecodeBytes(t) == Some(bs) <==> Spells(t, bs)
  {
    hide Spells, SymbolValue, EncodeGroup, DecodeGroup, Alike;
    SpellsLength(t, bs);
    DecodedLength(t);
    if |t| < 4 || |bs| < 3 {
      if |t| == 0 && |bs| == 0 {
        SpellsNothing(t, bs);
      } else if |t| == 2 && |bs| == 1 {
        OneSpelled(t, bs[0]);
        assert bs == [bs[0]];
      } else if |t| == 3 && |bs| == 2 {
        TwoSpelled(t, bs[0], bs[1]);
        assert bs == [bs[0], bs[1]];
      }
    } else {
      Base64Exactly(t[4..], bs[3..]);
      SpellsMore(t, bs);
      FourSpelled(t[..4], bs[0], bs[1], bs[2]);
      assert bs == [bs[0], bs[1], bs[2]] + bs[3..];
      MoreDecoded(t, bs);
    }
  }

  lemma SpellsNothing(t: Text, bs: seq<int>)
    requires |t| == 0 && |bs| == 0
    ensures Spells(t, bs) && DecodeBytes(t) == Some(bs)
  {}

  /** So many symbols for so many bytes. */
  predicate LengthFits(symbols: nat, bytes: nat) {
    symbols == bytes / 3 * 4 + if bytes % 3 == 0 then 0 else bytes % 3 + 1
  }

  lemma SpellsLength(t: Text, bs: seq<int>)
    ensures Spells(t, bs) ==> LengthFits(|t|, |bs|)
  {
    EncodedLength(bs);
  }

  lemma {:induction false} DecodedLength(t: Text)
    ensures DecodeBytes(t).Some? ==> LengthFits(|t|, |DecodeBytes(t).value|)
  {
    hide SymbolValue;
    if |t| >= 4 {
      DecodedLength(t[4..]);
    }
  }

  lemma MoreDecoded(t: Text, bs: seq<int>)
    requires |t| >= 4 && |bs| >= 3
    ensures DecodeBytes(t) == Some(bs) <==>
      && SymbolValue(t[0]).Some? && SymbolValue(t[1]).Some? && SymbolValue(t[2]).Some? && SymbolValue(t[3]).Some?
      && DecodeGroup(SymbolValue(t[0]).value, SymbolValue(t[1]).value, SymbolValue(t[2]).value,
                     SymbolValue(t[3]).value) == [bs[0], bs[1], bs[2]]
      && DecodeBytes(t[4..]) == Some(bs[3..])
  {
    hide SymbolValue, DecodeGroup;
    assert bs == [bs[0], bs[1], bs[2]] + bs[3..];
    if SymbolValue(t[0]).Some? && SymbolValue(t[1]).Some? && SymbolValue(t[2]).Some? && SymbolValue(t[3]).Some?
       && DecodeBytes(t[4..]).Some? {
      var (g, rest) := (DecodeGroup(SymbolValue(t[0]).value, SymbolValue(t[1]).value, SymbolValue(t[2]).value,
                                    SymbolValue(t[3]).value), DecodeBytes(t[4..]).value);
      GroupOf(SymbolValue(t[0]).value, SymbolValue(t[1]).value, SymbolValue(t[2]).value, SymbolValue(t[3]).value);
      assert (g + rest)[..3] == g && (g + rest)[3..] == rest;
      assert bs[..3] == [bs[0], bs[1], bs[2]];
    }
  }

  lemma GroupOf(p: int, q: int, r: int, s: int)
    ensures |DecodeGroup(p, q, r, s)| == 3
  {}

  lemma {:induction false} DecodedSymbols(t: Text)
    ensures DecodeBytes(t).Some? <==> AllSymbols(t) && |t| % 4 != 1
  {
    hide SymbolValue, DecodeGroup;
    if |t| >= 4 {
      DecodedSymbols(t[4..]);
      assert t == [t[0], t[1], t[2], t[3]] + t[4..];
      assert AllSymbols(t) <==>
        SymbolValue(t[0]).Some? && SymbolValue(t[1]).Some? && SymbolValue(t[2]).Some? && SymbolValue(t[3]).Some?
        && AllSymbols(t[4..]) by {
        forall i | 0 <= i < |t[4..]| ensures t[4..][i] == t[i + 4] {}
        forall i | 4 <= i < |t| ensures t[i] == t[4..][i - 4] {}
      }
    }
  }

  /** A text of at most 12288 symbols decodes when its bytes do. */
  lemma TextExactly(value: Text, t: Text)
    ensures Decode64(value) == Ok(t) <==>
      && value != [] && |value| <= 12288 && DecodeBytes(value).Some?
      && Decode(DecodeBytes(value).value) == Some(t)
    ensures Decode64(value) == Err(PayloadTooLarge) <==>
      value == [] || |value| > 12288 || DecodeBytes(value).None?
  {
    hide DecodeBytes, Decode, AllSymbols;
    DecodedSymbols(value);
  }
}
