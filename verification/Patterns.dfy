/** The patterns of identifiers, addresses and the like, told by the characters they are made of. */
module Patterns {
  import opened Strings
  import Base64Url
  import Addresses
  import IssuerService
  import IssuerSigner
  import OfflineEnvelope
  import PlatformStore
  import TrustSnapshot
  import Utf8
  import WalletState

  /** The character is one of these. */
  predicate In(c: CodeUnit, characters: string) {
    c in Ascii(characters)
  }

  const UPPER_FIRST := "ABCDEFGHIJKLM"
  const UPPER_LAST := "NOPQRSTUVWXYZ"
  const UPPER := UPPER_FIRST + UPPER_LAST
  const LOWER_FIRST := "abcdefghijklm"
  const LOWER_LAST := "nopqrstuvwxyz"
  const LOWER := LOWER_FIRST + LOWER_LAST
  const DIGITS := "0123456789"

  predicate Alphanumeric(c: CodeUnit) {
    In(c, UPPER) || In(c, LOWER) || In(c, DIGITS)
  }

  lemma UpperFirst()
    ensures |UPPER_FIRST| == 13 && forall k | 0 <= k < 13 :: UPPER_FIRST[k] as int == 0x41 + k
  {}

  lemma UpperLast()
    ensures |UPPER_LAST| == 13 && forall k | 0 <= k < 13 :: UPPER_LAST[k] as int == 0x4e + k
  {}

  lemma LowerFirst()
    ensures |LOWER_FIRST| == 13 && forall k | 0 <= k < 13 :: LOWER_FIRST[k] as int == 0x61 + k
  {}

  lemma LowerLast()
    ensures |LOWER_LAST| == 13 && forall k | 0 <= k < 13 :: LOWER_LAST[k] as int == 0x6e + k
  {}

  lemma UpperText()
    ensures |UPPER| == 26 && forall k | 0 <= k < 26 :: Ascii(UPPER)[k] == 0x41 + k
  {
    hide UPPER_FIRST, UPPER_LAST;
    UpperFirst();
    UpperLast();
    forall k | 0 <= k < 26 ensures Ascii(UPPER)[k] == 0x41 + k {
      assert UPPER[k] == if k < 13 then UPPER_FIRST[k] else UPPER_LAST[k - 13];
    }
  }

  lemma LowerText()
    ensures |LOWER| == 26 && forall k | 0 <= k < 26 :: Ascii(LOWER)[k] == 0x61 + k
  {
    hide LOWER_FIRST, LOWER_LAST;
    LowerFirst();
    LowerLast();
    forall k | 0 <= k < 26 ensures Ascii(LOWER)[k] == 0x61 + k {
      assert LOWER[k] == if k < 13 then LOWER_FIRST[k] else LOWER_LAST[k - 13];
    }
  }

  lemma DigitsText()
    ensures |DIGITS| == 10 && forall k | 0 <= k < 10 :: Ascii(DIGITS)[k] == 0x30 + k
  {
    assert Ascii(DIGITS) == [48, 49, 50, 51, 52, 53, 54, 55, 56, 57];
  }

  lemma InUpper(c: CodeUnit)
    ensures In(c, UPPER) <==> 0x41 <= c <= 0x5a
  {
    hide UPPER;
    UpperText();
    if 0x41 <= c <= 0x5a {
      assert Ascii(UPPER)[c - 0x41] == c;
    }
  }

  lemma InLower(c: CodeUnit)
    ensures In(c, LOWER) <==> 0x61 <= c <= 0x7a
  {
    hide LOWER;
    LowerText();
    if 0x61 <= c <= 0x7a {
      assert Ascii(LOWER)[c - 0x61] == c;
    }
  }

  lemma InDigits(c: CodeUnit)
    ensures In(c, DIGITS) <==> 0x30 <= c <= 0x39
  {
    hide DIGITS;
    DigitsText();
    if 0x30 <= c <= 0x39 {
      assert Ascii(DIGITS)[c - 0x30] == c;
    }
  }

  predicate Hexadecimal(c: CodeUnit) {
    In(c, DIGITS) || In(c, "abcdef") || In(c, "ABCDEF")
  }

  lemma HexadecimalIs(c: CodeUnit)
    ensures Hexadecimal(c) <==> Addresses.IsHex(c)
  {
    InDigits(c);
    assert Ascii("abcdef") == [97, 98, 99, 100, 101, 102] && Ascii("ABCDEF") == [65, 66, 67, 68, 69, 70];
  }

  lemma AlphanumericIs(c: CodeUnit)
    ensures Alphanumeric(c) <==> 0x41 <= c <= 0x5a || 0x61 <= c <= 0x7a || 0x30 <= c <= 0x39
  {
    hide In;
    InUpper(c);
    InLower(c);
    InDigits(c);
  }

  lemma InMarks(c: CodeUnit)
    ensures In(c, "._:-") <==> c in {0x2e, 0x5f, 0x3a, 0x2d}
    ensures In(c, "-_") <==> c in {0x2d, 0x5f}
  {
    assert Ascii("._:-") == [0x2e, 0x5f, 0x3a, 0x2d] && Ascii("-_") == [0x2d, 0x5f];
  }

  lemma InIdentifierMarks(c: CodeUnit)
    ensures In(c, "._:/#?@%+~-") <==> c in {0x2e, 0x5f, 0x3a, 0x2f, 0x23, 0x3f, 0x40, 0x25, 0x2b, 0x7e, 0x2d}
  {
    assert Ascii("._:/#?@%+~-") == [0x2e, 0x5f, 0x3a, 0x2f, 0x23, 0x3f, 0x40, 0x25, 0x2b, 0x7e, 0x2d];
  }

  // ------------------------------------------------------------- identifiers

  predicate IdCharacter(c: CodeUnit) {
    Alphanumeric(c) || In(c, "._:-")
  }

  lemma IdCharacterIs(c: CodeUnit)
    ensures IdCharacter(c) <==>
      0x41 <= c <= 0x5a || 0x61 <= c <= 0x7a || 0x30 <= c <= 0x39 || c in {0x2e, 0x5f, 0x3a, 0x2d}
  {
    hide In;
    AlphanumericIs(c);
    InMarks(c);
  }

  /** Ids of the issuer service: 1 to 128 letters, digits, dots, underscores, colons and hyphens, the first a
      letter or digit. */
  lemma IdExactly(t: Text)
    ensures IssuerService.IsId(t) <==>
      1 <= |t| && |t| <= 128 && Alphanumeric(t[0]) && forall c | c in t :: IdCharacter(c)
  {
    hide Alphanumeric, IdCharacter;
    forall c: CodeUnit ensures Alphanumeric(c) <==> IssuerService.IsIdStart(c) {
      AlphanumericIs(c);
    }
    forall c: CodeUnit ensures IdCharacter(c) <==> IssuerService.IsIdStart(c) || c in {0x2e, 0x5f, 0x3a, 0x2d} {
      IdCharacterIs(c);
    }
    forall i | 0 <= i < |t| ensures t[i] in t {}
  }

  /** Scopes of the trust registry are of the same form. */
  lemma ScopeExactly(t: Text)
    ensures TrustSnapshot.IsScope(t) <==>
      1 <= |t| && |t| <= 128 && Alphanumeric(t[0]) && forall c | c in t :: IdCharacter(c)
  {
    hide Alphanumeric, IdCharacter;
    if |t| > 0 {
      AlphanumericIs(t[0]);
    }
    forall c: CodeUnit ensures IdCharacter(c) <==> TrustSnapshot.ScopeStart(c) || c in {0x2e, 0x5f, 0x3a, 0x2d} {
      IdCharacterIs(c);
    }
    forall i | 0 <= i < |t| ensures t[i] in t {}
  }

  /** Ids of approvals and approvers, of bundles and their keys, and of stored records: the first may be any of these.
      */
  lemma ApprovalIdExactly(t: Text)
    ensures IssuerSigner.IsApprovalId(t) <==> 1 <= |t| && |t| <= 128 && forall c | c in t :: IdCharacter(c)
    ensures WalletState.IsBundleId(t) <==> 1 <= |t| && |t| <= 128 && forall c | c in t :: IdCharacter(c)
    ensures PlatformStore.IsKey(t) <==> 1 <= |t| && |t| <= 128 && forall c | c in t :: IdCharacter(c)
  {
    hide IdCharacter;
    forall c: CodeUnit ensures IdCharacter(c) <==>
      IsDigit(c) || 0x41 <= c <= 0x5a || 0x61 <= c <= 0x7a || c in {0x2e, 0x5f, 0x3a, 0x2d} {
      IdCharacterIs(c);
    }
    forall i | 0 <= i < |t| ensures t[i] in t {}
    forall c | c in t ensures exists i | 0 <= i < |t| :: t[i] == c {}
  }

  predicate IdentifierCharacter(c: CodeUnit) {
    Alphanumeric(c) || In(c, "._:/#?@%+~-")
  }

  lemma IdentifierCharacterIs(c: CodeUnit)
    ensures IdentifierCharacter(c) <==> OfflineEnvelope.IsAlphanumeric(c) || OfflineEnvelope.IsIdentifierMark(c)
  {
    hide In;
    AlphanumericIs(c);
    InIdentifierMarks(c);
  }

  /** No control character: neither below the space nor the delete character. */
  lemma ControlExactly(t: Text)
    ensures HasControl(t) <==> exists c | c in t :: c < 0x20 || c == 0x7f
  {
    if HasControl(t) {
      var i :| 0 <= i < |t| && IsControl(t[i]);
      assert t[i] in t;
    }
  }

  /** Identifiers of an envelope: at most 256 bytes, letters, digits and `._:/#?@%+~-`, the first a letter or digit. */
  lemma IdentifierExactly(t: Text)
    ensures OfflineEnvelope.SafeString(t, OfflineEnvelope.MAX_IDENTIFIER_BYTES, OfflineEnvelope.Identifier) <==>
      && 1 <= |t| && |t| <= 256 && |Utf8.Encode(t)| <= 256 && Alphanumeric(t[0])
      && forall c | c in t :: IdentifierCharacter(c)
  {
    hide Alphanumeric, IdentifierCharacter, Utf8.Encode, HasControl;
    ControlExactly(t);
    if |t| > 0 {
      AlphanumericIs(t[0]);
    }
    forall c: CodeUnit ensures
      IdentifierCharacter(c) <==> OfflineEnvelope.IsAlphanumeric(c) || OfflineEnvelope.IsIdentifierMark(c) {
      IdentifierCharacterIs(c);
    }
    forall i | 0 <= i < |t| ensures t[i] in t {}
    if |t| > 0 && Alphanumeric(t[0]) {
      FirstIsIdentifier(t[0]);
    }
  }

  lemma FirstIsIdentifier(c: CodeUnit)
    requires Alphanumeric(c)
    ensures IdentifierCharacter(c)
  {}

  // ----------------------------------------------------------------- base64url

  predicate Base64Character(c: CodeUnit) {
    Alphanumeric(c) || In(c, "-_")
  }

  lemma Base64CharacterIs(c: CodeUnit)
    ensures Base64Character(c) <==> Base64Url.SymbolValue(c).Some?
  {
    hide In;
    AlphanumericIs(c);
    InMarks(c);
  }

  /** Letters, digits, hyphens and underscores, and at least one. */
  lemma Base64Exactly(t: Text)
    ensures Base64Url.IsBase64Url(t) <==> |t| >= 1 && forall c | c in t :: Base64Character(c)
  {
    hide Base64Character;
    forall c: CodeUnit ensures Base64Character(c) <==> Base64Url.SymbolValue(c).Some? {
      Base64CharacterIs(c);
    }
    forall i | 0 <= i < |t| ensures t[i] in t {}
    forall c | c in t ensures exists i | 0 <= i < |t| :: t[i] == c {}
  }

  /** Secrets have 16 to 512 of these, nonces 16 to 128, signatures up to 4096. */
  lemma TokenExactly(t: Text)
    ensures IssuerService.IsToken(t) <==> 16 <= |t| && |t| <= 512 && forall c | c in t :: Base64Character(c)
  {
    Base64Exactly(t);
  }

  lemma {:induction false} Base64Encodes(t: Text)
    requires forall c | c in t :: 0 <= c < 0x80
    ensures |Utf8.Encode(t)| == |t|
  {
    if |t| > 0 {
      assert t[0] in t && forall c | c in t[1..] :: c in t;
      Base64Encodes(t[1..]);
    }
  }

  lemma Base64IsAscii(c: CodeUnit)
    requires Base64Character(c)
    ensures 0x20 <= c < 0x7f
  {
    hide In;
    AlphanumericIs(c);
    InMarks(c);
  }

  lemma Base64Plain(t: Text)
    requires forall c | c in t :: Base64Character(c)
    ensures |Utf8.Encode(t)| == |t| && !HasControl(t)
  {
    hide Base64Character, HasControl;
    forall c | c in t ensures 0x20 <= c < 0x7f {
      Base64IsAscii(c);
    }
    Base64Encodes(t);
    ControlExactly(t);
  }

  lemma NonceExactly(t: Text)
    ensures OfflineEnvelope.SafeString(t, 128, OfflineEnvelope.Nonce) <==>
      16 <= |t| && |t| <= 128 && forall c | c in t :: Base64Character(c)
    ensures OfflineEnvelope.SafeString(t, OfflineEnvelope.MAX_SIGNATURE_BYTES, OfflineEnvelope.Base64) <==>
      1 <= |t| && |t| <= 4096 && forall c | c in t :: Base64Character(c)
  {
    hide Base64Character, HasControl, Utf8.Encode, Base64Url.IsBase64Url;
    Base64Exactly(t);
    if forall c | c in t :: Base64Character(c) {
      Base64Plain(t);
    }
  }

  /** A credential is any text of at most 8192 bytes without control characters. */
  lemma CredentialTextExactly(t: Text)
    ensures OfflineEnvelope.SafeString(t, OfflineEnvelope.MAX_CREDENTIAL_BYTES, OfflineEnvelope.Anything) <==>
      1 <= |t| && |Utf8.Encode(t)| <= 8192 && forall c | c in t :: c >= 0x20 && c != 0x7f
  {
    hide Utf8.Encode, HasControl;
    ControlExactly(t);
  }

  // ---------------------------------------------------------------- addresses

  /** `0x` and so many hexadecimal digits. */
  predicate HexText(t: Text, digits: nat) {
    |t| == digits + 2 && t[..2] == Ascii("0x") && forall c | c in t[2..] :: Hexadecimal(c)
  }

  lemma HexTextIs(t: Text, digits: nat)
    ensures HexText(t, digits) <==>
      |t| == digits + 2 && t[0] == 0x30 && t[1] == 0x78 && forall i | 2 <= i < |t| :: Addresses.IsHex(t[i])
  {
    hide Hexadecimal;
    assert Ascii("0x") == [0x30, 0x78];
    if |t| >= 2 {
      forall i | 2 <= i < |t| ensures t[i] in t[2..] && (Hexadecimal(t[i]) <==> Addresses.IsHex(t[i])) {
        assert t[2..][i - 2] == t[i];
        HexadecimalIs(t[i]);
      }
      forall c | c in t[2..] ensures exists i | 2 <= i < |t| :: t[i] == c {
        var k :| 0 <= k < |t[2..]| && t[2..][k] == c;
        assert t[k + 2] == c;
      }
    }
  }

  /** An address is 40 digits, not all zero, and a selector 8. */
  lemma AddressExactly(t: Text)
    ensures Addresses.ValidAddress(t) <==> HexText(t, 40) && exists c | c in t[2..] :: c != 0x30
    ensures Addresses.ValidSelector(t) <==> HexText(t, 8)
  {
    hide HexText;
    HexTextIs(t, 40);
    HexTextIs(t, 8);
    if |t| == 42 {
      forall i | 2 <= i < 42 ensures t[i] in t[2..] {
        assert t[2..][i - 2] == t[i];
      }
      forall c | c in t[2..] ensures exists i | 2 <= i < 42 :: t[i] == c {
        var k :| 0 <= k < |t[2..]| && t[2..][k] == c;
        assert t[k + 2] == c;
      }
    }
  }

  /** Lower case changes the capital letters and nothing else. */
  lemma LowerExactly(t: Text)
    ensures |Addresses.Lower(t)| == |t|
    ensures forall i | 0 <= i < |t| ::
      if In(t[i], UPPER) then In(Addresses.Lower(t)[i], LOWER) && Addresses.Lower(t)[i] == t[i] + 0x20
      else Addresses.Lower(t)[i] == t[i]
  {
    hide In;
    forall i | 0 <= i < |t| ensures
      if In(t[i], UPPER) then In(Addresses.Lower(t)[i], LOWER) && Addresses.Lower(t)[i] == t[i] + 0x20
      else Addresses.Lower(t)[i] == t[i] {
      InUpper(t[i]);
      InLower(Addresses.Lower(t)[i]);
    }
  }

  // -------------------------------------------------------------- code units

  /** Surrogates, high and low. */
  lemma SurrogatesExactly(c: CodeUnit)
    ensures IsHigh(c) <==> c >= 0xd800 && c < 0xdc00
    ensures IsLow(c) <==> c >= 0xdc00 && c < 0xe000
  {}

  /** A text is paired when every high surrogate is followed by a low one, and every low one follows a high one. */
  predicate EveryHalfMeets(t: Text) {
    && (forall i | 0 <= i < |t| && IsHigh(t[i]) :: i + 1 < |t| && IsLow(t[i + 1]))
    && forall i | 0 <= i < |t| && IsLow(t[i]) :: i > 0 && IsHigh(t[i - 1])
  }

  lemma {:induction false} PairedExactly(t: Text)
    ensures Paired(t) <==> EveryHalfMeets(t)
    decreases |t|
  {
    if |t| > 0 {
      if StartsWithPair(t) {
        var u := t[2..];
        PairedExactly(u);
        assert forall i | 2 <= i < |t| :: t[i] == u[i - 2];
        assert forall i | 0 <= i < |u| :: u[i] == t[i + 2];
        if EveryHalfMeets(u) {
          forall i | 0 <= i < |t| && IsHigh(t[i]) ensures i + 1 < |t| && IsLow(t[i + 1]) {
            assert i >= 2 ==> IsHigh(u[i - 2]);
          }
          forall i | 0 <= i < |t| && IsLow(t[i]) ensures i > 0 && IsHigh(t[i - 1]) {
            assert i >= 2 ==> IsLow(u[i - 2]);
          }
        }
        if EveryHalfMeets(t) {
          forall i | 0 <= i < |u| && IsHigh(u[i]) ensures i + 1 < |u| && IsLow(u[i + 1]) {
            assert IsHigh(t[i + 2]);
          }
          forall i | 0 <= i < |u| && IsLow(u[i]) ensures i > 0 && IsHigh(u[i - 1]) {
            assert IsLow(t[i + 2]);
          }
        }
      } else {
        var u := t[1..];
        PairedExactly(u);
        assert forall i | 0 <= i < |u| :: u[i] == t[i + 1];
        if Paired(t) {
          forall i | 0 <= i < |t| && IsHigh(t[i]) ensures i + 1 < |t| && IsLow(t[i + 1]) {
            assert i >= 1 && IsHigh(u[i - 1]);
          }
          forall i | 0 <= i < |t| && IsLow(t[i]) ensures i > 0 && IsHigh(t[i - 1]) {
            assert i >= 1 && IsLow(u[i - 1]);
          }
        }
        if EveryHalfMeets(t) {
          forall i | 0 <= i < |u| && IsHigh(u[i]) ensures i + 1 < |u| && IsLow(u[i + 1]) {
            assert IsHigh(t[i + 1]);
          }
          forall i | 0 <= i < |u| && IsLow(u[i]) ensures i > 0 && IsHigh(u[i - 1]) {
            assert IsLow(t[i + 1]);
          }
        }
      }
    }
  }

  // -------------------------------------------------------------- byte layout

  predicate Continues(b: int) {
    128 <= b && b < 192
  }

  /** Section 3 of RFC 3629: the shortest of four forms, by the marks of its leading byte. */
  predicate IsPoint(bs: seq<int>, c: int) {
    || (|bs| == 1 && bs[0] == c && 0 <= c && c < 128)
    || (|bs| == 2 && 192 <= bs[0] && bs[0] < 224 && Continues(bs[1]) && c == (bs[0] - 192) * 64 + (bs[1] - 128)
      && 128 <= c)
    || (|bs| == 3 && 224 <= bs[0] && bs[0] < 240 && Continues(bs[1]) && Continues(bs[2])
        && c == ((bs[0] - 224) * 64 + (bs[1] - 128)) * 64 + (bs[2] - 128) && 2048 <= c)
    || (|bs| == 4 && 240 <= bs[0] && bs[0] < 248 && Continues(bs[1]) && Continues(bs[2]) && Continues(bs[3])
        && c == (((bs[0] - 240) * 64 + (bs[1] - 128)) * 64 + (bs[2] - 128)) * 64 + (bs[3] - 128) && 65536 <= c)
  }

  lemma PointIs(c: int)
    requires 0 <= c < 0x110000
    ensures IsPoint(Utf8.EncodePoint(c), c)
  {
    Utf8.Split(c);
  }

  /** A code unit is encoded as its value, and half a pair as the replacement character. */
  lemma Utf8Layout(c: CodeUnit, rest: Text) returns (bs: seq<int>)
    requires 0 <= c < 0x10000 && !(|rest| > 0 && IsHigh(c) && IsLow(rest[0]))
    ensures IsPoint(bs, if 0xd800 <= c && c < 0xe000 then 0xfffd else c)
    ensures Utf8.Encode([c] + rest) == bs + Utf8.Encode(rest)
  {
    hide IsPoint;
    bs := Utf8.EncodePoint(Utf8.Scalar(c));
    PointIs(Utf8.Scalar(c));
    assert ([c] + rest)[1..] == rest;
  }

  /** A surrogate pair is encoded as the scalar value it stands for. */
  lemma Utf8PairLayout(high: CodeUnit, low: CodeUnit, rest: Text) returns (bs: seq<int>)
    requires 0xd800 <= high && high < 0xdc00 && 0xdc00 <= low && low < 0xe000
    ensures IsPoint(bs, 0x10000 + (high - 0xd800) * 1024 + (low - 0xdc00))
    ensures Utf8.Encode([high, low] + rest) == bs + Utf8.Encode(rest)
  {
    hide IsPoint;
    bs := Utf8.EncodePoint(Utf8.PairPoint(high, low));
    PointIs(Utf8.PairPoint(high, low));
    assert ([high, low] + rest)[2..] == rest;
  }

  /** Table 2 of RFC 4648: capital letters, small letters, digits, hyphen and underscore. */
  function Alphabet(): (t: Text)
    ensures |t| == 64
  {
    UpperText();
    LowerText();
    DigitsText();
    Ascii(UPPER) + Ascii(LOWER) + Ascii(DIGITS) + Ascii("-_")
  }

  predicate Stands(c: CodeUnit, v: int) {
    0 <= v && v < 64 && c == Alphabet()[v]
  }

  lemma SymbolStands(v: int)
    requires 0 <= v < 64
    ensures Stands(Base64Url.Symbol(v), v)
  {
    hide UPPER, LOWER, DIGITS;
    UpperText();
    LowerText();
    DigitsText();
    assert Ascii("-_") == [0x2d, 0x5f];
    var (a, b, c, d) := (Ascii(UPPER), Ascii(LOWER), Ascii(DIGITS), Ascii("-_"));
    if v < 26 {
      assert Alphabet()[v] == a[v];
    } else if v < 52 {
      assert Alphabet()[v] == b[v - 26];
    } else if v < 62 {
      assert Alphabet()[v] == c[v - 52];
    } else {
      assert Alphabet()[v] == d[v - 62];
    }
  }

  /** Section 5 of RFC 4648: three bytes are four symbols of six bits each, in order; one byte or two at the end
      are two symbols or three, filled up with zero bits. */
  lemma Base64Layout(a: int, b: int, c: int, rest: seq<int>) returns (u: int, v: int, x: int, y: int)
    requires 0 <= a < 256 && 0 <= b < 256 && 0 <= c < 256
    ensures ((u * 64 + v) * 64 + x) * 64 + y == (a * 256 + b) * 256 + c
    ensures var t := Base64Url.EncodeBytes([a, b, c] + rest);
      && |t| >= 4 && Stands(t[0], u) && Stands(t[1], v) && Stands(t[2], x) && Stands(t[3], y)
      && t[4..] == Base64Url.EncodeBytes(rest)
  {
    hide Stands, Base64Url.Symbol;
    u, v, x, y := a / 4, a % 4 * 16 + b / 16, b % 16 * 4 + c / 64, c % 64;
    SymbolStands(u);
    SymbolStands(v);
    SymbolStands(x);
    SymbolStands(y);
    var bs := [a, b, c] + rest;
    assert bs[3..] == rest && bs[0] == a && bs[1] == b && bs[2] == c;
    assert Base64Url.EncodeBytes(bs) == Base64Url.EncodeGroup(a, b, c) + Base64Url.EncodeBytes(rest);
  }

  lemma Base64LastLayout(a: int, b: int) returns (u: int, v: int, x: int, y: int, z: int)
    requires 0 <= a < 256 && 0 <= b < 256
    ensures u * 64 + v == a * 16 && (x * 64 + y) * 64 + z == (a * 256 + b) * 4
    ensures var t := Base64Url.EncodeBytes([a]); |t| == 2 && Stands(t[0], u) && Stands(t[1], v)
    ensures var t := Base64Url.EncodeBytes([a, b]); |t| == 3 && Stands(t[0], x) && Stands(t[1], y) && Stands(t[2], z)
  {
    hide Stands, Base64Url.Symbol;
    u, v, x, y, z := a / 4, a % 4 * 16, a / 4, a % 4 * 16 + b / 16, b % 16 * 4;
    SymbolStands(u);
    SymbolStands(v);
    SymbolStands(y);
    SymbolStands(z);
    assert b % 16 * 4 + 0 / 64 == z && a % 4 * 16 + 0 / 16 == v;
  }
}
