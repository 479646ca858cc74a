/** Go strings are sequences of bytes, and `len` counts bytes. */
module Bytes {

  newtype byte = b: int | 0 <= b < 256

  const Esc: byte := 0x1B
  const LeftBracket: byte := 0x5B
  const LetterM: byte := 0x6D
  const Space: byte := 0x20
  const Tab: byte := 0x09
  const Newline: byte := 0x0A

  /** Bytes below 0x80 are ASCII and are never part of a multi-byte UTF-8 rune. */
  predicate IsAscii(s: seq<byte>)
  {
    forall i | 0 <= i < |s| :: s[i] < 0x80
  }

  /** `n` space bytes; none when `n` is not positive (fmt's writePadding). */
  function Spaces(n: int): (r: seq<byte>)
    ensures |r| == if n <= 0 then 0 else n
    ensures forall i | 0 <= i < |r| :: r[i] == Space
  {
    if n <= 0 then [] else [Space] + Spaces(n - 1)
  }

  /** Go's `int`, taken to be 64 bits wide. */
  const MinInt64: int := -0x8000_0000_0000_0000
  const MaxInt64: int := 0x7FFF_FFFF_FFFF_FFFF

  type int64 = x: int | -0x8000_0000_0000_0000 <= x <= 0x7FFF_FFFF_FFFF_FFFF

  /** Two's-complement wrap-around of a 64-bit signed result. */
  function IntWrap(x: int): (r: int64)
    ensures MinInt64 <= x <= MaxInt64 ==> r == x
    ensures (x - r) % 0x1_0000_0000_0000_0000 == 0
  {
    (x - MinInt64) % 0x1_0000_0000_0000_0000 + MinInt64
  }
}
