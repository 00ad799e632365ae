/** Unpadded base64url over UTF-8: section 5 of RFC 4648, as the offline envelope uses it. */
module Base64Url {
  import opened Strings
  import opened Wrappers
  import opened Utf8

  const MAX_ENVELOPE_BYTES := 12288

  function Symbol(v: int): CodeUnit {
    if v < 26 then 0x41 + v
    else if v < 52 then 0x61 + (v - 26)
    else if v < 62 then 0x30 + (v - 52)
    else if v == 62 then 0x2d
    else 0x5f
  }

  function SymbolValue(c: CodeUnit): Option<int> {
    if 0x41 <= c <= 0x5a then Some(c - 0x41)
    else if 0x61 <= c <= 0x7a then Some(c - 0x61 + 26)
    else if 0x30 <= c <= 0x39 then Some(c - 0x30 + 52)
    else if c == 0x2d then Some(62)
    else if c == 0x5f then Some(63)
    else None
  }

  /** The pattern `^[A-Za-z0-9_-]+$`. */
  predicate IsBase64Url(t: Text) {
    |t| > 0 && AllSymbols(t)
  }

  predicate AllSymbols(t: Text) {
    forall i | 0 <= i < |t| :: SymbolValue(t[i]).Some?
  }

  function EncodeGroup(a: int, b: int, c: int): Text {
    [Symbol(a / 4), Symbol(a % 4 * 16 + b / 16), Symbol(b % 16 * 4 + c / 64), Symbol(c % 64)]
  }

  function EncodeBytes(bs: seq<int>): Text {
    if |bs| == 0 then []
    else if |bs| == 1 then EncodeGroup(bs[0], 0, 0)[..2]
    else if |bs| == 2 then EncodeGroup(bs[0], bs[1], 0)[..3]
    else EncodeGroup(bs[0], bs[1], bs[2]) + EncodeBytes(bs[3..])
  }

  /** The three bytes of four symbols. */
  function DecodeGroup(p: int, q: int, r: int, s: int): seq<int> {
    [p * 4 + q / 16, q % 16 * 16 + r / 4, r % 4 * 64 + s]
  }

  /** `atob` of the padded text.  The spare bits of a last group are dropped, so distinct texts
      may decode to the same bytes. */
  function DecodeBytes(t: Text): Option<seq<int>> {
    if |t| == 0 then Some([])
    else if |t| == 1 then None
    else
      var p :- SymbolValue(t[0]);
      var q :- SymbolValue(t[1]);
      if |t| == 2 then Some(DecodeGroup(p, q, 0, 0)[..1])
      else
        var r :- SymbolValue(t[2]);
        if |t| == 3 then Some(DecodeGroup(p, q, r, 0)[..2])
        else
          var s :- SymbolValue(t[3]);
          var rest :- DecodeBytes(t[4..]);
          Some(DecodeGroup(p, q, r, s) + rest)
  }

  datatype EnvelopeError = MalformedEnvelope | PayloadTooLarge | UnsupportedVersion | DowngradeDetected

  function Encode64(t: Text): Text {
    EncodeBytes(Encode(t))
  }

  function Decode64(value: Text): Result<Text, EnvelopeError> {
    if !IsBase64Url(value) || |value| % 4 == 1 || |value| > MAX_ENVELOPE_BYTES then Err(PayloadTooLarge)
    else
      match DecodeBytes(value)
      case None => Err(MalformedEnvelope)
      case Some(bs) =>
        match Decode(bs)
        case None => Err(MalformedEnvelope)
        case Some(t) => Ok(t)
  }

  // -------------------------------------------------------------- round trip

  lemma SymbolRoundTrip(v: int)
    requires 0 <= v < 64
    ensures SymbolValue(Symbol(v)) == Some(v)
  {}

  lemma GroupBytes(a: int, b: int, c: int)
    requires 0 <= a < 256 && 0 <= b < 256 && 0 <= c < 256
    ensures DecodeGroup(a / 4, a % 4 * 16 + b / 16, b % 16 * 4 + c / 64, c % 64) == [a, b, c]
  {
    var q, r := a % 4 * 16 + b / 16, b % 16 * 4 + c / 64;
    assert 0 <= b / 16 < 16 && q / 16 == a % 4 && q % 16 == b / 16;
    assert 0 <= c / 64 < 4 && r / 4 == b % 16 && r % 4 == c / 64;
    assert a / 4 * 4 + a % 4 == a;
    assert b / 16 * 16 + b % 16 == b;
    assert c / 64 * 64 + c % 64 == c;
  }

  lemma GroupSymbols(a: int, b: int, c: int)
    requires 0 <= a < 256 && 0 <= b < 256 && 0 <= c < 256
    ensures
      var g := EncodeGroup(a, b, c);
      && SymbolValue(g[0]) == Some(a / 4)
      && SymbolValue(g[1]) == Some(a % 4 * 16 + b / 16)
      && SymbolValue(g[2]) == Some(b % 16 * 4 + c / 64)
      && SymbolValue(g[3]) == Some(c % 64)
  {
    hide Symbol, SymbolValue;
    SymbolRoundTrip(a / 4);
    SymbolRoundTrip(a % 4 * 16 + b / 16);
    SymbolRoundTrip(b % 16 * 4 + c / 64);
    SymbolRoundTrip(c % 64);
  }

  /** The symbols of the first group and what they decode to, whatever follows. */
  lemma DecodeFullGroup(g: Text, a: int, b: int, c: int, tail: Text)
    requires 0 <= a < 256 && 0 <= b < 256 && 0 <= c < 256 && g == EncodeGroup(a, b, c)
    ensures DecodeBytes(g + tail)
         == match DecodeBytes(tail) case Some(rest) => Some([a, b, c] + rest) case None => None
  {
    hide Symbol, SymbolValue, DecodeGroup;
    GroupSymbols(a, b, c);
    GroupBytes(a, b, c);
    var t := g + tail;
    assert t[0] == g[0] && t[1] == g[1] && t[2] == g[2] && t[3] == g[3];
    assert t[4..] == tail;
  }

  lemma DecodeOne(a: int)
    requires 0 <= a < 256
    ensures DecodeBytes(EncodeGroup(a, 0, 0)[..2]) == Some([a])
  {
    hide Symbol, SymbolValue;
    GroupSymbols(a, 0, 0);
    GroupBytes(a, 0, 0);
    var t := EncodeGroup(a, 0, 0)[..2];
    var q := a % 4 * 16;
    assert SymbolValue(t[0]) == Some(a / 4) && SymbolValue(t[1]) == Some(q);
    assert DecodeGroup(a / 4, q, 0, 0)[0] == a;
    assert DecodeGroup(a / 4, q, 0, 0)[..1] == [a];
  }

  lemma DecodeTwo(a: int, b: int)
    requires 0 <= a < 256 && 0 <= b < 256
    ensures DecodeBytes(EncodeGroup(a, b, 0)[..3]) == Some([a, b])
  {
    hide Symbol, SymbolValue;
    GroupSymbols(a, b, 0);
    GroupBytes(a, b, 0);
    var t := EncodeGroup(a, b, 0)[..3];
    var q, r := a % 4 * 16 + b / 16, b % 16 * 4;
    assert SymbolValue(t[0]) == Some(a / 4) && SymbolValue(t[1]) == Some(q) && SymbolValue(t[2]) == Some(r);
    assert DecodeGroup(a / 4, q, r, 0)[..2] == [a, b];
  }

  lemma GroupSize(a: int, b: int, c: int)
    requires 0 <= a < 256 && 0 <= b < 256 && 0 <= c < 256
    ensures |EncodeGroup(a, b, c)| == 4 && AllSymbols(EncodeGroup(a, b, c))
  {
    GroupSymbols(a, b, c);
  }

  lemma {:induction false} EncodedShape(bs: seq<int>)
    requires Bytes(bs)
    ensures |EncodeBytes(bs)| % 4 != 1
    ensures AllSymbols(EncodeBytes(bs))
    ensures |bs| > 0 ==> |EncodeBytes(bs)| > 0
  {
    hide SymbolValue, EncodeGroup;
    if |bs| > 0 {
      GroupSize(bs[0], if |bs| > 1 then bs[1] else 0, if |bs| > 2 then bs[2] else 0);
    }
    if |bs| > 2 {
      EncodedShape(bs[3..]);
    }
  }

  lemma {:induction false} BytesRoundTrip(bs: seq<int>)
    requires Bytes(bs)
    ensures DecodeBytes(EncodeBytes(bs)) == Some(bs)
  {
    hide EncodeGroup, DecodeBytes;
    if |bs| == 0 {
      DecodeNothing();
    } else if |bs| == 1 {
      DecodeOne(bs[0]);
      assert [bs[0]] == bs;
    } else if |bs| == 2 {
      DecodeTwo(bs[0], bs[1]);
      assert [bs[0], bs[1]] == bs;
    } else {
      BytesRoundTrip(bs[3..]);
      DecodeFullGroup(EncodeGroup(bs[0], bs[1], bs[2]), bs[0], bs[1], bs[2], EncodeBytes(bs[3..]));
      assert bs == [bs[0], bs[1], bs[2]] + bs[3..];
    }
  }

  lemma DecodeNothing()
    ensures DecodeBytes([]) == Some([])
  {}

  /** Decoding an encoded text: refused when empty or too large, and otherwise the text back,
      except that unpaired surrogates are replaced and a leading byte order mark is dropped. */
  lemma Decode64OfEncode64(t: Text)
    requires Units(t)
    ensures Decode64(Encode64(t))
         == if |t| == 0 || |Encode64(t)| > MAX_ENVELOPE_BYTES then Err(PayloadTooLarge)
            else Ok(StripMark(Repaired(t)))
  {
    EncodeRoundTrip(t);
    BytesRoundTrip(Encode(t));
    EncodedShape(Encode(t));
  }

  /** So the round trip is exact precisely on paired texts without a leading mark. */
  lemma RoundTripExact(t: Text)
    requires Units(t) && 0 < |t| && |Encode64(t)| <= MAX_ENVELOPE_BYTES
    ensures Decode64(Encode64(t)) == Ok(t) <==> Paired(t) && t[0] != 0xfeff
  {
    Decode64OfEncode64(t);
    RepairedIsSame(t);
  }

  /** Different byte strings never share an encoding. */
  lemma EncodeBytesInjective(a: seq<int>, b: seq<int>)
    requires Bytes(a) && Bytes(b)
    ensures EncodeBytes(a) == EncodeBytes(b) <==> a == b
  {
    BytesRoundTrip(a);
    BytesRoundTrip(b);
  }
}
