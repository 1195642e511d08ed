/** Lower-case hexadecimal digits. */
module HexDigits {
  import opened Utf

  function HexDigit(n: int): unit
    requires 0 <= n < 16
  {
    if n < 10 then 0x30 + n else 0x61 + n - 10
  }

  predicate IsHex(u: unit) {
    0x30 <= u <= 0x39 || 0x61 <= u <= 0x66
  }

  function HexValue(u: unit): (n: int)
    requires IsHex(u)
    ensures 0 <= n < 16 && HexDigit(n) == u
  {
    if u <= 0x39 then u - 0x30 else u - 0x61 + 10
  }

  lemma {:induction false} HexValueOfDigit(n: int)
    requires 0 <= n < 16
    ensures IsHex(HexDigit(n)) && HexValue(HexDigit(n)) == n
  {
  }
}

/** UUIDs: 32 lower-case hexadecimal digits with hyphens after 8, 12, 16 and 20 of them
    (frontend/src/transferProtocol.ts). */
module Uuids {
  import opened Utf
  import opened HexDigits

  const HYPHEN: unit := 0x2D

  predicate IsHyphen(p: int) {
    p == 8 || p == 13 || p == 18 || p == 23
  }

  predicate HexText(s: Text) {
    |s| == 36 && forall p :: 0 <= p < 36 ==> if IsHyphen(p) then s[p] == HYPHEN else IsHex(s[p])
  }

  // UUID_PATTERN: the version digit is 1 to 5, the variant digit 8, 9, a or b.
  predicate IsUuid(s: Text) {
    HexText(s) && 1 <= HexValue(s[14]) <= 5 && 8 <= HexValue(s[19]) <= 11
  }
}
