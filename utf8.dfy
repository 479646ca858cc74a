/**
 * How Go counts the runes of a string (utf8.RuneCountInString), which is what
 * `fmt` measures a `%*s` argument in (shlog.go:81). Each invalid byte counts
 * as one rune of its own.
 */
module Utf8 {
  import opened Bytes

  /** The size a leading byte announces: 1 for ASCII, 2 to 4, or 0 for a byte that starts no rune. */
  function LeadSize(c: byte): nat
  {
    if c < 0x80 then 1
    else if c < 0xC2 then 0
    else if c < 0xE0 then 2
    else if c < 0xF0 then 3
    else if c < 0xF5 then 4
    else 0
  }

  /** The range the second byte must lie in after a given leading byte (no overlongs, no surrogates, nothing above U+10FFFF). */
  function AcceptLo(c: byte): byte
  {
    if c == 0xE0 then 0xA0 else if c == 0xF0 then 0x90 else 0x80
  }

  function AcceptHi(c: byte): byte
  {
    if c == 0xED then 0x9F else if c == 0xF4 then 0x8F else 0xBF
  }

  predicate IsContinuation(b: byte)
  {
    0x80 <= b <= 0xBF
  }

  /** How many bytes the first rune of `s` takes: 1 for ASCII and for every byte that starts no valid encoding. */
  function RuneLen(s: seq<byte>): (n: nat)
    requires s != []
    ensures 1 <= n <= |s|
    ensures n > 1 ==> n == LeadSize(s[0]) && forall j | 1 <= j < n :: IsContinuation(s[j])
  {
    var c := s[0];
    var size := LeadSize(c);
    if c < 0x80 || size == 0 || |s| < size then 1
    else if s[1] < AcceptLo(c) || AcceptHi(c) < s[1] then 1
    else if size == 2 then 2
    else if !IsContinuation(s[2]) then 1
    else if size == 3 then 3
    else if !IsContinuation(s[3]) then 1
    else 4
  }

  /** utf8.RuneCountInString. */
  function RuneCount(s: seq<byte>): (n: nat)
    ensures n <= |s|
    ensures n == 0 <==> s == []
    decreases |s|
  {
    if s == [] then 0 else 1 + RuneCount(s[RuneLen(s)..])
  }

  /** ASCII bytes are one rune each. */
  lemma {:induction false} RuneCountAsciiPrefix(a: seq<byte>, s: seq<byte>)
    requires IsAscii(a)
    ensures RuneCount(a + s) == |a| + RuneCount(s)
  {
    if a == [] {
      assert a + s == s;
    } else {
      assert (a + s)[1..] == a[1..] + s;
      RuneCountAsciiPrefix(a[1..], s);
    }
  }

  /** An ASCII byte can never complete an unfinished multi-byte rune. */
  lemma RuneLenAsciiSuffix(s: seq<byte>, a: seq<byte>)
    requires s != [] && IsAscii(a)
    ensures RuneLen(s + a) == RuneLen(s)
  {
    var t := s + a;
    assert t[0] == s[0];
    if |s| < 4 {
      assert |s| >= 2 ==> t[1] == s[1];
      assert |s| >= 3 ==> t[2] == s[2];
    } else {
      assert t[1] == s[1] && t[2] == s[2] && t[3] == s[3];
    }
  }

  lemma {:induction false} RuneCountAsciiSuffix(s: seq<byte>, a: seq<byte>)
    requires IsAscii(a)
    ensures RuneCount(s + a) == RuneCount(s) + |a|
    decreases |s|
  {
    if s == [] {
      assert s + a == a + [];
      RuneCountAsciiPrefix(a, []);
    } else {
      RuneLenAsciiSuffix(s, a);
      var n := RuneLen(s);
      assert (s + a)[n..] == s[n..] + a;
      RuneCountAsciiSuffix(s[n..], a);
    }
  }

  /** A Unicode scalar value: a code point that is not a surrogate. */
  predicate IsScalar(r: int)
  {
    0 <= r < 0x11_0000 && !(0xD800 <= r < 0xE000)
  }

  /**
   * The UTF-8 encoding of a scalar value, written from the bit layout of
   * RFC 3629 section 3 and independent of the decoder above.
   */
  function Encode(r: int): (e: seq<byte>)
    requires IsScalar(r)
    ensures |e| == if r < 0x80 then 1 else if r < 0x800 then 2 else if r < 0x1_0000 then 3 else 4
  {
    if r < 0x80 then [r as byte]
    else if r < 0x800 then [(0xC0 + r / 0x40) as byte, (0x80 + r % 0x40) as byte]
    else if r < 0x1_0000 then
      [(0xE0 + r / 0x1000) as byte, (0x80 + r / 0x40 % 0x40) as byte, (0x80 + r % 0x40) as byte]
    else
      [(0xF0 + r / 0x4_0000) as byte, (0x80 + r / 0x1000 % 0x40) as byte,
       (0x80 + r / 0x40 % 0x40) as byte, (0x80 + r % 0x40) as byte]
  }

  lemma RuneLenEncode3(r: int, t: seq<byte>)
    requires IsScalar(r) && 0x800 <= r < 0x1_0000
    ensures RuneLen(Encode(r) + t) == 3
  {
    var s := Encode(r) + t;
    var c := s[0];
    assert c == (0xE0 + r / 0x1000) as byte && 0xE0 <= c <= 0xEF;
    assert s[1] == (0x80 + r / 0x40 % 0x40) as byte && s[2] == (0x80 + r % 0x40) as byte;
    if c == 0xE0 {
      assert r / 0x40 % 0x40 >= 0x20;
    }
    if c == 0xED {
      assert r / 0x40 % 0x40 < 0x20;
    }
  }

  lemma RuneLenEncode4(r: int, t: seq<byte>)
    requires IsScalar(r) && 0x1_0000 <= r
    ensures RuneLen(Encode(r) + t) == 4
  {
    var s := Encode(r) + t;
    var c := s[0];
    assert c == (0xF0 + r / 0x4_0000) as byte && 0xF0 <= c <= 0xF4;
    assert s[1] == (0x80 + r / 0x1000 % 0x40) as byte;
    assert s[2] == (0x80 + r / 0x40 % 0x40) as byte && s[3] == (0x80 + r % 0x40) as byte;
    if c == 0xF0 {
      assert r / 0x1000 % 0x40 >= 0x10;
    }
    if c == 0xF4 {
      assert r / 0x1000 % 0x40 < 0x10;
    }
  }

  /** Go's decoder takes the encoding of a scalar value whole, whatever follows it. */
  lemma RuneLenEncode(r: int, t: seq<byte>)
    requires IsScalar(r)
    ensures RuneLen(Encode(r) + t) == |Encode(r)|
  {
    if r < 0x80 {
    } else if r < 0x800 {
      var s := Encode(r) + t;
      assert s[0] == (0xC0 + r / 0x40) as byte && 0xC2 <= s[0] < 0xE0;
      assert s[1] == (0x80 + r % 0x40) as byte;
    } else if r < 0x1_0000 {
      RuneLenEncode3(r, t);
    } else {
      RuneLenEncode4(r, t);
    }
  }

  /** The encoding of a scalar value counts as one rune, whatever follows it. */
  lemma {:induction false} RuneCountEncode(r: int, t: seq<byte>)
    requires IsScalar(r)
    ensures RuneCount(Encode(r) + t) == 1 + RuneCount(t)
  {
    var e := Encode(r);
    RuneLenEncode(r, t);
    assert (e + t)[|e|..] == t;
  }

  lemma DecodeTwo(s: seq<byte>)
    requires |s| >= 2 && RuneLen(s) == 2
    ensures IsScalar((s[0] as int - 0xC0) * 0x40 + (s[1] as int - 0x80))
    ensures s[..2] == Encode((s[0] as int - 0xC0) * 0x40 + (s[1] as int - 0x80))
  {
    var r := (s[0] as int - 0xC0) * 0x40 + (s[1] as int - 0x80);
    assert r / 0x40 == s[0] as int - 0xC0 && r % 0x40 == s[1] as int - 0x80;
  }

  lemma DecodeThree(s: seq<byte>)
    requires |s| >= 3 && RuneLen(s) == 3
    ensures var r := (s[0] as int - 0xE0) * 0x1000 + (s[1] as int - 0x80) * 0x40 + (s[2] as int - 0x80);
            IsScalar(r) && s[..3] == Encode(r)
  {
    var a, b, c := s[0] as int - 0xE0, s[1] as int - 0x80, s[2] as int - 0x80;
    var r := a * 0x1000 + b * 0x40 + c;
    assert r / 0x1000 == a && r / 0x40 % 0x40 == b && r % 0x40 == c;
  }

  lemma DecodeFour(s: seq<byte>)
    requires |s| >= 4 && RuneLen(s) == 4
    ensures var r := (s[0] as int - 0xF0) * 0x4_0000 + (s[1] as int - 0x80) * 0x1000 +
                     (s[2] as int - 0x80) * 0x40 + (s[3] as int - 0x80);
            IsScalar(r) && s[..4] == Encode(r)
  {
    var a, b, c, d := s[0] as int - 0xF0, s[1] as int - 0x80, s[2] as int - 0x80, s[3] as int - 0x80;
    var x := a * 0x40 + b;
    var y := x * 0x40 + c;
    var r := y * 0x40 + d;
    assert x / 0x40 == a && x % 0x40 == b;
    assert y / 0x40 == x && y % 0x40 == c;
    assert r / 0x40 == y && r % 0x40 == d;
    assert r / 0x1000 == x;
    assert r / 0x4_0000 == a;
  }

  /** Conversely, every multi-byte rune the decoder takes is the encoding of a scalar value. */
  lemma RuneLenDecodes(s: seq<byte>)
    requires s != [] && RuneLen(s) > 1
    ensures exists r | IsScalar(r) :: s[..RuneLen(s)] == Encode(r)
  {
    var n := RuneLen(s);
    if n == 2 {
      DecodeTwo(s);
    } else if n == 3 {
      DecodeThree(s);
    } else {
      DecodeFour(s);
    }
  }
}
