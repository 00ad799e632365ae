/** Account addresses, which the programs compare in lower case. */
module Addresses {
  import opened Strings

  type Address = Text

  predicate IsHex(c: CodeUnit) {
    IsDigit(c) || 0x61 <= c <= 0x66 || 0x41 <= c <= 0x46
  }

  /** `^0x[0-9a-fA-F]{40}$`, and not all zero. */
  predicate ValidAddress(a: Address) {
    && |a| == 42 && a[0] == 0x30 && a[1] == 0x78
    && (forall i | 2 <= i < 42 :: IsHex(a[i]))
    && exists i | 2 <= i < 42 :: a[i] != 0x30
  }

  function LowerUnit(c: CodeUnit): CodeUnit {
    if 0x41 <= c <= 0x5a then c + 0x20 else c
  }

  function Lower(a: Address): Address {
    seq(|a|, i requires 0 <= i < |a| => LowerUnit(a[i]))
  }

  /** `^0x[0-9a-fA-F]{8}$` */
  predicate ValidSelector(s: Text) {
    |s| == 10 && s[0] == 0x30 && s[1] == 0x78 && forall i | 2 <= i < 10 :: IsHex(s[i])
  }
}
