/** Octets and byte strings, as the hashing and audit code sees text. */
module Octets {
  newtype byte = x: int | 0 <= x < 256

  type Bytes = seq<byte>

  /** The bytes of a literal (all literals used here are ASCII). */
  function Ascii(s: string): (r: Bytes)
    ensures |r| == |s|
  {
    seq(|s|, i requires 0 <= i < |s| => (s[i] as int % 256) as byte)
  }

  const HEX_DIGITS: Bytes :=
    [48, 49, 50, 51, 52, 53, 54, 55, 56, 57, 97, 98, 99, 100, 101, 102]

  predicate IsHexDigit(b: byte) {
    48 <= b <= 57 || 97 <= b <= 102
  }

  function HexDigit(n: int): (d: byte)
    requires 0 <= n < 16
    ensures IsHexDigit(d)
    ensures d as int == if n < 10 then 48 + n else 87 + n
  {
    HEX_DIGITS[n]
  }
}
