/**
 * The one formatting directive of the logger that does more than concatenate:
 * `%*s` (shlog.go:81), a string in a field whose width is taken from an `int`
 * argument. As Go's fmt does it: a width beyond one million either way prints
 * "%!(BADWIDTH)" and no padding; a negative width left-justifies in a field of
 * its absolute value; the field is measured in runes; and a string already as
 * wide as the field is printed whole.
 */
module Fmt {
  import opened Bytes
  import opened Utf8

  const MaxWidth: int := 1_000_000

  /** "%!(BADWIDTH)" */
  const BadWidth: seq<byte> := [0x25, 0x21, 0x28, 0x42, 0x41, 0x44, 0x57, 0x49, 0x44, 0x54, 0x48, 0x29]

  predicate TooLarge(wid: int)
  {
    wid > MaxWidth || wid < -MaxWidth
  }

  function Abs(x: int): nat
  {
    if x < 0 then -x else x
  }

  function Max(a: int, b: int): int
  {
    if a < b then b else a
  }

  /** `fmt.Sprintf("%*s", wid, s)`. */
  function PadString(wid: int, s: seq<byte>): (r: seq<byte>)
    ensures TooLarge(wid) ==> r == BadWidth + s
    ensures !TooLarge(wid) && wid >= 0 ==>
      |r| >= |s| && r[|r| - |s|..] == s && forall i | 0 <= i < |r| - |s| :: r[i] == Space
    ensures !TooLarge(wid) && wid < 0 ==>
      |r| >= |s| && r[..|s|] == s && forall i | |s| <= i < |r| :: r[i] == Space
  {
    if TooLarge(wid) then BadWidth + s
    else if wid < 0 then s + Spaces(-wid - RuneCount(s))
    else Spaces(wid - RuneCount(s)) + s
  }

  /** Within bounds, the field is `|wid|` runes wide, or as wide as `s` when `s` is wider. */
  lemma PadStringWidth(wid: int, s: seq<byte>)
    requires !TooLarge(wid)
    ensures RuneCount(PadString(wid, s)) == Max(Abs(wid), RuneCount(s))
  {
    if wid < 0 {
      RuneCountAsciiSuffix(s, Spaces(-wid - RuneCount(s)));
    } else {
      RuneCountAsciiPrefix(Spaces(wid - RuneCount(s)), s);
    }
  }
}
