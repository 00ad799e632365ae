/** TextEncoder and the fatal TextDecoder, over UTF-16 code units. */
module Utf8 {
  import opened Strings
  import opened Wrappers

  predicate Bytes(bs: seq<int>) {
    forall i | 0 <= i < |bs| :: 0 <= bs[i] < 0x100
  }

  predicate IsTail(b: int) {
    0x80 <= b <= 0xbf
  }

  function PairPoint(high: CodeUnit, low: CodeUnit): int {
    0x10000 + (high - 0xd800) * 0x400 + (low - 0xdc00)
  }

  function EncodePoint(c: int): seq<int> {
    if c < 0x80 then [c]
    else if c < 0x800 then [0xc0 + c / 0x40, 0x80 + c % 0x40]
    else if c < 0x10000 then [0xe0 + c / 0x1000, 0x80 + c / 0x40 % 0x40, 0x80 + c % 0x40]
    else [0xf0 + c / 0x40000, 0x80 + c / 0x1000 % 0x40, 0x80 + c / 0x40 % 0x40, 0x80 + c % 0x40]
  }

  /** The encoder writes an unpaired surrogate as U+FFFD. */
  function Scalar(c: CodeUnit): CodeUnit {
    if IsHigh(c) || IsLow(c) then 0xfffd else c
  }

  function Encode(t: Text): seq<int> {
    if |t| == 0 then []
    else if StartsWithPair(t) then EncodePoint(PairPoint(t[0], t[1])) + Encode(t[2..])
    else EncodePoint(Scalar(t[0])) + Encode(t[1..])
  }

  /** The text the encoder really writes. */
  function Repaired(t: Text): Text {
    if |t| == 0 then []
    else if StartsWithPair(t) then t[..2] + Repaired(t[2..])
    else [Scalar(t[0])] + Repaired(t[1..])
  }

  datatype Step = Bad | Step(units: Text, size: nat)

  /** One scalar value at the front of bs: no overlong form, surrogate or value past U+10FFFF. */
  function DecodeStep(bs: seq<int>): (r: Step)
    requires |bs| > 0
    ensures r.Step? ==> 0 < r.size <= |bs|
  {
    var b := bs[0];
    if 0 <= b < 0x80 then Step([b], 1)
    else if |bs| < 2 then Bad
    else if 0xc2 <= b <= 0xdf then
      if IsTail(bs[1]) then Step([(b - 0xc0) * 0x40 + (bs[1] - 0x80)], 2) else Bad
    else if |bs| < 3 then Bad
    else if 0xe0 <= b <= 0xef then
      if (if b == 0xe0 then 0xa0 else 0x80) <= bs[1] <= (if b == 0xed then 0x9f else 0xbf) && IsTail(bs[2])
      then Step([(b - 0xe0) * 0x1000 + (bs[1] - 0x80) * 0x40 + (bs[2] - 0x80)], 3)
      else Bad
    else if |bs| < 4 then Bad
    else if 0xf0 <= b <= 0xf4 then
      if (if b == 0xf0 then 0x90 else 0x80) <= bs[1] <= (if b == 0xf4 then 0x8f else 0xbf)
        && IsTail(bs[2]) && IsTail(bs[3])
      then
        var offset := (b - 0xf0) * 0x40000 + (bs[1] - 0x80) * 0x1000 + (bs[2] - 0x80) * 0x40 + (bs[3] - 0x80) - 0x10000;
        Step([0xd800 + offset / 0x400, 0xdc00 + offset % 0x400], 4)
      else Bad
    else Bad
  }

  function DecodeUnits(bs: seq<int>): Option<Text> {
    if |bs| == 0 then Some([])
    else
      match DecodeStep(bs)
      case Bad => None
      case Step(units, size) =>
        var rest :- DecodeUnits(bs[size..]);
        Some(units + rest)
  }

  /** The decoder drops one leading byte order mark. */
  function StripMark(t: Text): Text {
    if |t| > 0 && t[0] == 0xfeff then t[1..] else t
  }

  function Decode(bs: seq<int>): Option<Text> {
    var t :- DecodeUnits(bs);
    Some(StripMark(t))
  }

  // -------------------------------------------------------------- round trip

  lemma PointBytes(c: int)
    requires 0 <= c < 0x110000
    ensures Bytes(EncodePoint(c)) && |EncodePoint(c)| > 0
  {}

  lemma Split(c: int)
    requires 0 <= c < 0x110000
    ensures c / 0x40 == c / 0x1000 * 0x40 + c / 0x40 % 0x40
    ensures c / 0x1000 == c / 0x40000 * 0x40 + c / 0x1000 % 0x40
    ensures c == c / 0x40 * 0x40 + c % 0x40
  {
    var a := c / 0x40;
    var b := a / 0x40;
    assert b == c / 0x1000;
    assert b / 0x40 == c / 0x40000;
  }

  lemma DecodeEncodedUnit(c: CodeUnit, rest: seq<int>)
    requires 0 <= c < 0x10000 && !IsHigh(c) && !IsLow(c)
    ensures DecodeStep(EncodePoint(c) + rest) == Step([c], |EncodePoint(c)|)
  {
    Split(c);
    var bs := EncodePoint(c) + rest;
    if 0x800 <= c {
      var e := EncodePoint(c);
      assert bs[0] == e[0] && bs[1] == e[1] && bs[2] == e[2];
    }
  }

  lemma DecodeEncodedPair(high: CodeUnit, low: CodeUnit, rest: seq<int>)
    requires IsHigh(high) && IsLow(low)
    ensures DecodeStep(EncodePoint(PairPoint(high, low)) + rest) == Step([high, low], 4)
  {
    var c := PairPoint(high, low);
    Split(c);
    var e := EncodePoint(c);
    var bs := e + rest;
    assert bs[0] == e[0] && bs[1] == e[1] && bs[2] == e[2] && bs[3] == e[3];
    var offset := c - 0x10000;
    assert offset == (high - 0xd800) * 0x400 + (low - 0xdc00);
    assert offset / 0x400 == high - 0xd800 && offset % 0x400 == low - 0xdc00;
  }

  /** Decoding what was encoded gives the text back, unpaired surrogates repaired. */
  lemma {:induction false} EncodeRoundTrip(t: Text)
    requires Units(t)
    ensures DecodeUnits(Encode(t)) == Some(Repaired(t))
    ensures Bytes(Encode(t))
    ensures |t| > 0 ==> |Encode(t)| > 0
  {
    if |t| > 0 {
      hide EncodePoint, DecodeStep, PairPoint;
      var n := if StartsWithPair(t) then 2 else 1;
      var c := if n == 2 then PairPoint(t[0], t[1]) else Scalar(t[0]);
      EncodeRoundTrip(t[n..]);
      PairRange(t);
      PointBytes(c);
      var rest := Encode(t[n..]);
      if n == 2 {
        DecodeEncodedPair(t[0], t[1], rest);
        assert t[..2] == [t[0], t[1]];
      } else {
        DecodeEncodedUnit(c, rest);
      }
      PairSize(t);
      assert (EncodePoint(c) + rest)[|EncodePoint(c)|..] == rest;
    }
  }

  lemma PairRange(t: Text)
    ensures StartsWithPair(t) ==> 0x10000 <= PairPoint(t[0], t[1]) < 0x110000
  {}

  lemma PairSize(t: Text)
    ensures StartsWithPair(t) ==> |EncodePoint(PairPoint(t[0], t[1]))| == 4
  {}

  /** The repair leaves a text alone exactly when its surrogates are paired. */
  lemma {:induction false} RepairedIsSame(t: Text)
    ensures Repaired(t) == t <==> Paired(t)
    ensures |Repaired(t)| == |t|
  {
    if |t| > 0 {
      if StartsWithPair(t) {
        RepairedIsSame(t[2..]);
        assert t == t[..2] + t[2..];
        assert Repaired(t)[2..] == Repaired(t[2..]);
      } else {
        RepairedIsSame(t[1..]);
        assert t == [t[0]] + t[1..];
        assert Repaired(t)[1..] == Repaired(t[1..]);
      }
    }
  }
}
