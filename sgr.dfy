/**
 * The one regular expression of the logger, `\x1b\[\d+m` (shlog.go:40): an
 * ECMA-48 "Select Graphic Rendition" escape, ESC '[' one or more ASCII digits
 * 'm'. `Strip` is `ReplaceAllString(s, "")` for this pattern: it removes the
 * leftmost match, continues after it, and keeps every other byte.
 */
module Sgr {
  import opened Bytes

  /** RE2's `\d`: the ASCII digits only. */
  predicate IsDigit(b: byte)
  {
    0x30 <= b <= 0x39
  }

  /** `e` is, in its entirety, one match of the pattern. */
  predicate IsSgr(e: seq<byte>)
  {
    |e| >= 4 && e[0] == Esc && e[1] == LeftBracket && e[|e| - 1] == LetterM &&
    forall j | 2 <= j < |e| - 1 :: IsDigit(e[j])
  }

  /** A byte that can occur inside a match. */
  predicate IsSgrByte(b: byte)
  {
    b == Esc || b == LeftBracket || IsDigit(b) || b == LetterM
  }

  /** `s` contains no match anywhere. */
  predicate SgrFree(s: seq<byte>)
  {
    forall i, j | 0 <= i <= j <= |s| :: !IsSgr(s[i..j])
  }

  predicate EscFree(s: seq<byte>)
  {
    forall i | 0 <= i < |s| :: s[i] != Esc
  }

  /** Length of the longest run of digits at the start of `s`. */
  function DigitRun(s: seq<byte>): (n: nat)
    ensures n <= |s|
    ensures forall j | 0 <= j < n :: IsDigit(s[j])
    ensures n < |s| ==> !IsDigit(s[n])
  {
    if s != [] && IsDigit(s[0]) then 1 + DigitRun(s[1..]) else 0
  }

  /**
   * The match anchored at the start of `s`: its length, or 0 when no prefix of
   * `s` matches. At most one prefix can match, since `\d+` cannot be followed
   * by a digit where the closing 'm' must stand.
   */
  function MatchLen(s: seq<byte>): (k: nat)
    ensures k <= |s|
    ensures k != 0 ==> IsSgr(s[..k])
  {
    if |s| >= 2 && s[0] == Esc && s[1] == LeftBracket then
      var d := DigitRun(s[2..]);
      if d > 0 && 2 + d < |s| && s[2 + d] == LetterM then
        assert s[..3 + d][2..2 + d] == s[2..][..d];
        3 + d
      else
        0
    else
      0
  }

  /** `escape_re.ReplaceAllString(s, "")` (shlog.go:77). */
  function Strip(s: seq<byte>): (r: seq<byte>)
    ensures |r| <= |s|
    decreases |s|
  {
    if s == [] then []
    else
      var k := MatchLen(s);
      if k != 0 then Strip(s[k..]) else [s[0]] + Strip(s[1..])
  }

  /** Every prefix of `s` that is a match has the length `MatchLen` finds, so 0 means none matches. */
  lemma MatchLenUnique(s: seq<byte>, n: nat)
    requires n <= |s| && IsSgr(s[..n])
    ensures n == MatchLen(s)
  {
    var d := DigitRun(s[2..]);
    assert s[..n][0] == s[0] && s[..n][1] == s[1];
    forall j | 0 <= j < n - 3
      ensures IsDigit(s[2..][j])
    {
      assert s[2..][j] == s[..n][j + 2];
    }
    assert s[..n][n - 1] == s[n - 1];
  }

  /** A match is fixed by its first bytes: whatever follows it, it is still the anchored match. */
  lemma MatchLenOfSgr(e: seq<byte>, t: seq<byte>)
    requires IsSgr(e)
    ensures MatchLen(e + t) == |e|
  {
    assert (e + t)[..|e|] == e;
    MatchLenUnique(e + t, |e|);
  }

  /** A match at the front is removed and nothing else about the rest changes. */
  lemma StripSgrPrefix(e: seq<byte>, t: seq<byte>)
    requires IsSgr(e)
    ensures Strip(e + t) == Strip(t)
  {
    MatchLenOfSgr(e, t);
    assert (e + t)[|e|..] == t;
  }

  /** Bytes before which no match can start pass through unchanged. */
  lemma StripNoMatchHead(q: seq<byte>)
    requires q != [] && q[0] != Esc
    ensures Strip(q) == [q[0]] + Strip(q[1..])
  {
  }

  lemma {:induction false} StripEscFreePrefix(p: seq<byte>, t: seq<byte>)
    requires EscFree(p)
    ensures Strip(p + t) == p + Strip(t)
  {
    if p == [] {
      assert p + t == t;
    } else {
      var q := p + t;
      assert q[0] == p[0];
      StripNoMatchHead(q);
      assert q[1..] == p[1..] + t;
      StripEscFreePrefix(p[1..], t);
      assert p == [p[0]] + p[1..];
    }
  }

  /** A string without ESC is its own visible text. */
  lemma StripEscFree(p: seq<byte>)
    requires EscFree(p)
    ensures Strip(p) == p
  {
    StripEscFreePrefix(p, []);
    assert p + [] == p;
  }

  /**
   * `t` cannot continue a match begun in front of it: it starts with no byte
   * that may stand after a match's first byte, or with a '[' not followed
   * by a digit.
   */
  predicate CannotContinue(t: seq<byte>)
  {
    |t| == 0 ||
    (!IsDigit(t[0]) && t[0] != LetterM &&
     (t[0] == LeftBracket ==> |t| == 1 || !IsDigit(t[1])))
  }

  /** A prefix of `s + t` that ends inside `t` is no match. */
  lemma NoStraddlingMatch(s: seq<byte>, t: seq<byte>, k: nat)
    requires CannotContinue(t)
    requires 0 < |s| < k <= |s + t|
    ensures !IsSgr((s + t)[..k])
  {
    var e := (s + t)[..k];
    assert e[|s|] == t[0];
    if |s| == 1 && k > 2 {
      assert e[2] == t[1];
    }
  }

  lemma PrefixOfConcat(s: seq<byte>, t: seq<byte>, k: nat)
    requires k <= |s|
    ensures (s + t)[..k] == s[..k]
  {
  }

  /** No match starting in `s` reaches into a `t` that cannot continue one. */
  lemma MatchLenOfConcat(s: seq<byte>, t: seq<byte>)
    requires s != [] && CannotContinue(t)
    ensures MatchLen(s + t) == MatchLen(s)
  {
    var k, m := MatchLen(s + t), MatchLen(s);
    if k != 0 {
      if k > |s| {
        NoStraddlingMatch(s, t, k);
        assert false;
      }
      PrefixOfConcat(s, t, k);
    }
    if m != 0 {
      PrefixOfConcat(s, t, m);
    }
  }

  /** Stripping distributes over a split that no match straddles. */
  lemma {:induction false} StripConcat(s: seq<byte>, t: seq<byte>)
    requires CannotContinue(t)
    ensures Strip(s + t) == Strip(s) + Strip(t)
    decreases |s|
  {
    if s == [] {
      assert s + t == t;
    } else {
      MatchLenOfConcat(s, t);
      var k := MatchLen(s);
      if k != 0 {
        assert (s + t)[k..] == s[k..] + t;
        StripConcat(s[k..], t);
      } else {
        assert (s + t)[1..] == s[1..] + t;
        StripConcat(s[1..], t);
      }
    }
  }

  lemma TailSlice(s: seq<byte>, i: nat, j: nat)
    requires 1 <= i <= j <= |s|
    ensures s[1..][i - 1..j - 1] == s[i..j]
  {
    assert |s[1..][i - 1..j - 1]| == j - i;
    forall n | 0 <= n < j - i
      ensures s[1..][i - 1..j - 1][n] == s[i..j][n]
    {
    }
  }

  /** When no match starts at the front, `s` is free of matches exactly when its tail is. */
  lemma SgrFreeTail(s: seq<byte>)
    requires s != [] && MatchLen(s) == 0
    ensures SgrFree(s) <==> SgrFree(s[1..])
  {
    if SgrFree(s) {
      forall i, j | 0 <= i <= j <= |s| - 1
        ensures !IsSgr(s[1..][i..j])
      {
        assert s[1..][i..j] == s[i + 1..j + 1];
      }
    }
    if SgrFree(s[1..]) {
      forall i, j | 0 <= i <= j <= |s|
        ensures !IsSgr(s[i..j])
      {
        if i == 0 {
          assert s[i..j] == s[..j];
          if IsSgr(s[..j]) {
            MatchLenUnique(s, j);
          }
        } else {
          TailSlice(s, i, j);
        }
      }
    }
  }

  /**
   * Stripping leaves `s` as it is exactly when `s` holds no match, and
   * otherwise makes it strictly shorter.
   */
  lemma {:induction false} StripUnchangedIff(s: seq<byte>)
    ensures Strip(s) == s <==> SgrFree(s)
    ensures !SgrFree(s) ==> |Strip(s)| < |s|
    decreases |s|
  {
    if s == [] {
      assert forall i, j | 0 <= i <= j <= |s| :: s[i..j] == [];
    } else {
      var k := MatchLen(s);
      if k != 0 {
        assert s[0..k] == s[..k];
      } else {
        SgrFreeTail(s);
        StripUnchangedIff(s[1..]);
        assert s == [s[0]] + s[1..];
      }
    }
  }

  /** Every byte of a match is one of ESC, '[', a digit or 'm'. */
  lemma SgrBytes(e: seq<byte>, b: byte)
    requires IsSgr(e) && !IsSgrByte(b)
    ensures multiset(e)[b] == 0
  {
    assert forall i | 0 <= i < |e| :: IsSgrByte(e[i]);
    assert b !in e;
  }

  /** Stripping removes no byte that cannot belong to a match. */
  lemma {:induction false} StripKeepsText(s: seq<byte>, b: byte)
    requires !IsSgrByte(b)
    ensures multiset(Strip(s))[b] == multiset(s)[b]
    decreases |s|
  {
    if s != [] {
      var k := MatchLen(s);
      if k != 0 {
        assert s == s[..k] + s[k..];
        SgrBytes(s[..k], b);
        StripKeepsText(s[k..], b);
      } else {
        assert s == [s[0]] + s[1..];
        StripKeepsText(s[1..], b);
      }
    }
  }

  /**
   * Removal is not idempotent: stripping `ESC [ ESC [ 1 m 1 m` removes the
   * inner match and joins its neighbours into a new one.
   */
  lemma StripNotIdempotent()
    ensures var s: seq<byte> := [Esc, LeftBracket, Esc, LeftBracket, 0x31, LetterM, 0x31, LetterM];
      Strip(s) == [Esc, LeftBracket, 0x31, LetterM] && Strip(Strip(s)) == []
  {
    var s: seq<byte> := [Esc, LeftBracket, Esc, LeftBracket, 0x31, LetterM, 0x31, LetterM];
    var inner: seq<byte> := [Esc, LeftBracket, 0x31, LetterM];
    assert MatchLen(s) == 0;
    assert MatchLen(s[1..]) == 0;
    assert s[1..][1..] == inner + [0x31, LetterM];
    StripSgrPrefix(inner, [0x31, LetterM]);
    StripEscFree([0x31, LetterM]);
    StripSgrPrefix(inner, []);
    assert inner + [] == inner;
  }
}
