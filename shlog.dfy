/**
 * shlog, a coloured terminal logger. A `Logger` prints a prefixed message,
 * remembers how many bytes of it are visible once its colour escapes are
 * removed, and later prints a coloured status marker. After a message with
 * fewer than `Padding` visible bytes (and at most a million fewer), the
 * marker's left delimiter is the `Padding`-th column counted from the first
 * byte of the message. Standard output is the `output` field.
 */
module Shlog {
  import opened Bytes
  import opened Sgr
  import opened Utf8
  import opened Fmt

  /** `Color` and `Symbol` are Go string types whose `String()` is the identity. */
  type Color = seq<byte>
  type Symbol = seq<byte>

  const Reset: Color :=  [0x1B, 0x5B, 0x30, 0x6D]  // "\x1b[0m"
  const Black: Color :=  [0x1B, 0x5B, 0x33, 0x30, 0x6D]  // "\x1b[30m"
  const Red: Color :=    [0x1B, 0x5B, 0x33, 0x31, 0x6D]  // "\x1b[31m"
  const Green: Color :=  [0x1B, 0x5B, 0x33, 0x32, 0x6D]  // "\x1b[32m"
  const Orange: Color := [0x1B, 0x5B, 0x33, 0x33, 0x6D]  // "\x1b[33m"
  const Purple: Color := [0x1B, 0x5B, 0x33, 0x34, 0x6D]  // "\x1b[34m"
  const Pink: Color :=   [0x1B, 0x5B, 0x33, 0x35, 0x6D]  // "\x1b[35m"
  const Cyan: Color :=   [0x1B, 0x5B, 0x33, 0x36, 0x6D]  // "\x1b[36m"
  const White: Color :=  [0x1B, 0x5B, 0x33, 0x37, 0x6D]  // "\x1b[37m"
  const Grey: Color :=   [0x1B, 0x5B, 0x39, 0x30, 0x6D]  // "\x1b[90m"

  /** The texts and delimiters `NewLogger` sets. */
  const OkText: seq<byte> := [0x6F, 0x6B]  // "ok"
  const ErrorText: seq<byte> := [0x65, 0x72, 0x72]  // "err"
  const DoneText: seq<byte> := [0x41, 0x6C, 0x6C, 0x20, 0x64, 0x6F, 0x6E, 0x65]  // "All done"
  const LeftDelim: seq<byte> := [0x5B]  // "["
  const RightDelim: seq<byte> := [0x5D]  // "]"

  const Colors: seq<Color> := [Reset, Black, Red, Green, Orange, Purple, Pink, Cyan, White, Grey]

  /** U+27AF, a heavy rightwards arrow, in UTF-8. */
  const Arrow: Symbol := [0xE2, 0x9E, 0xAF]
  /** U+1F44D, thumbs up, in UTF-8. */
  const ThumbsUp: Symbol := [0xF0, 0x9F, 0x91, 0x8D]

  /** Every colour, the two-digit `Grey` included, is exactly one match of the escape pattern. */
  lemma ColorIsSgr(c: Color)
    requires c in Colors
    ensures IsSgr(c)
  {
    assert c == Colors[0] || c == Colors[1] || c == Colors[2] || c == Colors[3] || c == Colors[4] ||
           c == Colors[5] || c == Colors[6] || c == Colors[7] || c == Colors[8] || c == Colors[9];
  }

  /** Each symbol is the UTF-8 encoding of its code point, and so one rune as fmt counts runes. */
  lemma SymbolsAreOneRune()
    ensures Arrow == Encode(0x27AF) && ThumbsUp == Encode(0x1_F44D)
    ensures RuneCount(Arrow) == 1 && RuneCount(ThumbsUp) == 1
  {
    RuneCountEncode(0x27AF, []);
    assert Arrow + [] == Arrow;
    RuneCountEncode(0x1_F44D, []);
    assert ThumbsUp + [] == ThumbsUp;
  }

  /** Plain text between a colour and `Reset` is all that stays visible. */
  lemma StripColored(c: Color, plain: seq<byte>)
    requires c in Colors && EscFree(plain)
    ensures Strip(c + plain + Reset) == plain
  {
    ColorIsSgr(c);
    ColorIsSgr(Reset);
    assert c + plain + Reset == c + (plain + Reset);
    StripSgrPrefix(c, plain + Reset);
    StripEscFreePrefix(plain, Reset);
    StripSgrPrefix(Reset, []);
    assert Reset + [] == Reset;
  }

  /** The bytes `Message` prints (shlog.go:76): `"%s %s\t%s%s"` of the prefix colour, the prefix symbol, `Reset` and the message. */
  function MessageLine(prefixColor: Color, prefixSymbol: Symbol, msg: seq<byte>): seq<byte>
  {
    prefixColor + [Space] + prefixSymbol + [Tab] + Reset + msg
  }

  /** The `int` argument of `%*s` in `Status` (shlog.go:81), with 64-bit wrap-around. */
  function StatusWidth(padding: int64, lastMessageLen: int64): int64
  {
    IntWrap(padding - lastMessageLen)
  }

  /** The bytes `Status` prints (shlog.go:81): `"%*s%s%s%s%s\n"`, the padded left delimiter and then the marker. */
  function StatusLine(width: int, leftDelim: seq<byte>, color: Color, text: seq<byte>, rightDelim: seq<byte>): seq<byte>
  {
    PadString(width, leftDelim) + Marker(color, text, rightDelim)
  }

  /** The part of a status line after the left delimiter: the coloured text, `Reset`, the right delimiter and a newline. */
  function Marker(color: Color, text: seq<byte>, rightDelim: seq<byte>): seq<byte>
  {
    color + text + Reset + rightDelim + [Newline]
  }

  /** The bytes `Done` prints (shlog.go:93): `"\n %s\t%s\n\n"`. */
  function DoneLine(doneSymbol: Symbol, doneText: seq<byte>): seq<byte>
  {
    [Newline, Space] + doneSymbol + [Tab] + doneText + [Newline, Newline]
  }

  /**
   * With a one-rune left delimiter and a last message shorter than `Padding`,
   * `Status` prints exactly `Padding - lastMessageLen - 1` spaces before the
   * delimiter; with a message exactly as long, none.
   */
  lemma StatusLeadingSpaces(padding: int64, lastMessageLen: int64, leftDelim: seq<byte>,
                            color: Color, text: seq<byte>, rightDelim: seq<byte>)
    requires RuneCount(leftDelim) == 1
    requires lastMessageLen <= padding <= lastMessageLen + MaxWidth
    ensures StatusLine(StatusWidth(padding, lastMessageLen), leftDelim, color, text, rightDelim) ==
            Spaces(padding - lastMessageLen - 1) + leftDelim + Marker(color, text, rightDelim)
    ensures |Spaces(padding - lastMessageLen - 1)| + 1 == if lastMessageLen < padding then padding - lastMessageLen else 1
  {
  }

  /**
   * When the last message is longer than `Padding` (by no more than fmt's
   * limit), `Status` prints the delimiter first and pads after it, so that
   * the spaces stand inside the brackets.
   */
  lemma StatusLeftJustified(padding: int64, lastMessageLen: int64, leftDelim: seq<byte>,
                            color: Color, text: seq<byte>, rightDelim: seq<byte>)
    requires padding < lastMessageLen <= padding + MaxWidth
    ensures StatusLine(StatusWidth(padding, lastMessageLen), leftDelim, color, text, rightDelim) ==
            leftDelim + Spaces(lastMessageLen - padding - RuneCount(leftDelim)) + Marker(color, text, rightDelim)
  {
  }

  /** A delimiter that cannot continue a match still cannot once spaces or an escape follow it. */
  lemma CannotContinueExtended(d: seq<byte>, x: seq<byte>)
    requires CannotContinue(d)
    requires x != [] && (x[0] == Space || x[0] == Esc)
    ensures CannotContinue(d + x)
  {
    if d == [] {
      assert d + x == x;
    } else if |d| == 1 {
      assert (d + x)[1] == x[0];
    } else {
      assert (d + x)[1] == d[1];
    }
  }

  /** The visible part of a marker: colour and `Reset` vanish around `text`. */
  lemma StripMarker(color: Color, text: seq<byte>, rightDelim: seq<byte>)
    requires IsSgr(color) && EscFree(text) && EscFree(rightDelim)
    ensures Strip(Marker(color, text, rightDelim)) == text + rightDelim + [Newline]
  {
    var tail := rightDelim + [Newline];
    assert EscFree(tail);
    assert color + text + Reset + rightDelim + [Newline] == color + (text + (Reset + tail));
    ColorIsSgr(Reset);
    StripSgrPrefix(color, text + (Reset + tail));
    StripEscFreePrefix(text, Reset + tail);
    StripSgrPrefix(Reset, tail);
    StripEscFree(tail);
  }

  /** The message line shows its prefix symbol and its visible message; what follows is stripped on its own. */
  lemma StripMessageLine(prefixColor: Color, prefixSymbol: Symbol, msg: seq<byte>, after: seq<byte>)
    requires IsSgr(prefixColor) && EscFree(prefixSymbol) && CannotContinue(after)
    ensures Strip(MessageLine(prefixColor, prefixSymbol, msg) + after) ==
            [Space] + prefixSymbol + [Tab] + Strip(msg) + Strip(after)
  {
    var head := [Space] + prefixSymbol + [Tab];
    var rest := Reset + (msg + after);
    MessageLineSplit(prefixColor, prefixSymbol, msg, after);
    assert EscFree(head);
    StripColoredPrefix(prefixColor, head, rest);
    ColorIsSgr(Reset);
    StripSgrPrefix(Reset, msg + after);
    StripConcat(msg, after);
  }

  /** A message line and what follows it, regrouped as colour, plain head, and the rest. */
  lemma MessageLineSplit(prefixColor: Color, prefixSymbol: Symbol, msg: seq<byte>, after: seq<byte>)
    ensures MessageLine(prefixColor, prefixSymbol, msg) + after ==
            prefixColor + (([Space] + prefixSymbol + [Tab]) + (Reset + (msg + after)))
  {
  }

  /** A colour followed by ESC-free bytes shows only those bytes in front of the rest. */
  lemma StripColoredPrefix(c: Color, plain: seq<byte>, rest: seq<byte>)
    requires IsSgr(c) && EscFree(plain)
    ensures Strip(c + (plain + rest)) == plain + Strip(rest)
  {
    StripSgrPrefix(c, plain + rest);
    StripEscFreePrefix(plain, rest);
  }

  /** A status line shows its padded delimiter, then the marker text without its colour. */
  lemma StripStatusLineOf(width: int, leftDelim: seq<byte>, color: Color, text: seq<byte>, rightDelim: seq<byte>)
    requires IsSgr(color) && EscFree(PadString(width, leftDelim)) && EscFree(text) && EscFree(rightDelim)
    ensures Strip(StatusLine(width, leftDelim, color, text, rightDelim)) ==
            PadString(width, leftDelim) + (text + rightDelim + [Newline])
  {
    StripMarker(color, text, rightDelim);
    StripEscFreePrefix(PadString(width, leftDelim), Marker(color, text, rightDelim));
  }

  /** Spaces in front keep a string from continuing a match. */
  lemma CannotContinueAfterSpaces(sp: seq<byte>, x: seq<byte>)
    requires forall i | 0 <= i < |sp| :: sp[i] == Space
    requires CannotContinue(x)
    ensures CannotContinue(sp + x)
  {
    if sp == [] {
      assert sp + x == x;
    } else {
      assert (sp + x)[0] == Space;
    }
  }

  /** A status line cannot continue a match begun before it: it starts with a space, the delimiter or '%'. */
  lemma StatusLineCannotContinue(width: int, leftDelim: seq<byte>, color: Color, text: seq<byte>, rightDelim: seq<byte>)
    requires IsSgr(color) && CannotContinue(leftDelim)
    ensures CannotContinue(StatusLine(width, leftDelim, color, text, rightDelim))
  {
    var pad, rest := PadString(width, leftDelim), Marker(color, text, rightDelim);
    assert rest[0] == Esc;
    if TooLarge(width) {
      assert (pad + rest)[0] == 0x25;
    } else if width < 0 {
      var sp := Spaces(-width - RuneCount(leftDelim));
      assert (sp + rest)[0] == Space || (sp + rest)[0] == Esc;
      CannotContinueExtended(leftDelim, sp + rest);
      assert pad + rest == leftDelim + (sp + rest);
    } else {
      var sp := Spaces(width - RuneCount(leftDelim));
      CannotContinueExtended(leftDelim, rest);
      CannotContinueAfterSpaces(sp, leftDelim + rest);
      assert pad + rest == sp + (leftDelim + rest);
    }
  }

  /**
   * What a terminal shows of a status line whose width is in range and not
   * negative: the delimiter right-justified in a field of `width` runes.
   */
  lemma StripStatusRight(width: int, leftDelim: seq<byte>, color: Color, text: seq<byte>, rightDelim: seq<byte>)
    requires IsSgr(color) && EscFree(leftDelim) && EscFree(text) && EscFree(rightDelim)
    requires 0 <= width <= MaxWidth
    ensures Strip(StatusLine(width, leftDelim, color, text, rightDelim)) ==
            Spaces(width - RuneCount(leftDelim)) + leftDelim + (text + rightDelim + [Newline])
  {
    assert PadString(width, leftDelim) == Spaces(width - RuneCount(leftDelim)) + leftDelim;
    assert EscFree(PadString(width, leftDelim));
    StripStatusLineOf(width, leftDelim, color, text, rightDelim);
  }

  /**
   * A negative width in range left-justifies the delimiter: the spaces come
   * between the delimiter and the text.
   */
  lemma StripStatusLeft(width: int, leftDelim: seq<byte>, color: Color, text: seq<byte>, rightDelim: seq<byte>)
    requires IsSgr(color) && EscFree(leftDelim) && EscFree(text) && EscFree(rightDelim)
    requires -MaxWidth <= width < 0
    ensures Strip(StatusLine(width, leftDelim, color, text, rightDelim)) ==
            leftDelim + Spaces(-width - RuneCount(leftDelim)) + (text + rightDelim + [Newline])
  {
    assert PadString(width, leftDelim) == leftDelim + Spaces(-width - RuneCount(leftDelim));
    assert EscFree(PadString(width, leftDelim));
    StripStatusLineOf(width, leftDelim, color, text, rightDelim);
  }

  /** A width beyond fmt's limit puts "%!(BADWIDTH)" before the unpadded delimiter. */
  lemma StripStatusBadWidth(width: int, leftDelim: seq<byte>, color: Color, text: seq<byte>, rightDelim: seq<byte>)
    requires IsSgr(color) && EscFree(leftDelim) && EscFree(text) && EscFree(rightDelim)
    requires TooLarge(width)
    ensures Strip(StatusLine(width, leftDelim, color, text, rightDelim)) ==
            BadWidth + leftDelim + (text + rightDelim + [Newline])
  {
    assert PadString(width, leftDelim) == BadWidth + leftDelim;
    assert EscFree(PadString(width, leftDelim));
    StripStatusLineOf(width, leftDelim, color, text, rightDelim);
  }

  /**
   * A message line completed by a status line whose width is in range and
   * not negative, as the terminal shows it (shlog.go:76-81): the prefix
   * symbol, the visible message, spaces, the delimiter ending `width` runes
   * after the message, then the marker text.
   */
  lemma MessageThenStatusRight(prefixColor: Color, prefixSymbol: Symbol, msg: seq<byte>,
                               width: int, leftDelim: seq<byte>, color: Color, text: seq<byte>,
                               rightDelim: seq<byte>)
    requires IsSgr(prefixColor) && IsSgr(color)
    requires EscFree(prefixSymbol) && EscFree(leftDelim) && EscFree(text) && EscFree(rightDelim)
    requires CannotContinue(leftDelim)
    requires 0 <= width <= MaxWidth
    ensures Strip(MessageLine(prefixColor, prefixSymbol, msg) + StatusLine(width, leftDelim, color, text, rightDelim)) ==
            [Space] + prefixSymbol + [Tab] + Strip(msg) +
            (Spaces(width - RuneCount(leftDelim)) + leftDelim + (text + rightDelim + [Newline]))
  {
    StatusLineCannotContinue(width, leftDelim, color, text, rightDelim);
    StripMessageLine(prefixColor, prefixSymbol, msg, StatusLine(width, leftDelim, color, text, rightDelim));
    StripStatusRight(width, leftDelim, color, text, rightDelim);
  }

  /** As `MessageThenStatusRight`, for a negative width in range: the spaces follow the delimiter. */
  lemma MessageThenStatusLeft(prefixColor: Color, prefixSymbol: Symbol, msg: seq<byte>,
                              width: int, leftDelim: seq<byte>, color: Color, text: seq<byte>,
                              rightDelim: seq<byte>)
    requires IsSgr(prefixColor) && IsSgr(color)
    requires EscFree(prefixSymbol) && EscFree(leftDelim) && EscFree(text) && EscFree(rightDelim)
    requires CannotContinue(leftDelim)
    requires -MaxWidth <= width < 0
    ensures Strip(MessageLine(prefixColor, prefixSymbol, msg) + StatusLine(width, leftDelim, color, text, rightDelim)) ==
            [Space] + prefixSymbol + [Tab] + Strip(msg) +
            (leftDelim + Spaces(-width - RuneCount(leftDelim)) + (text + rightDelim + [Newline]))
  {
    StatusLineCannotContinue(width, leftDelim, color, text, rightDelim);
    StripMessageLine(prefixColor, prefixSymbol, msg, StatusLine(width, leftDelim, color, text, rightDelim));
    StripStatusLeft(width, leftDelim, color, text, rightDelim);
  }

  /** As `MessageThenStatusRight`, for a width beyond fmt's limit: "%!(BADWIDTH)" and no padding. */
  lemma MessageThenStatusBadWidth(prefixColor: Color, prefixSymbol: Symbol, msg: seq<byte>,
                                  width: int, leftDelim: seq<byte>, color: Color, text: seq<byte>,
                                  rightDelim: seq<byte>)
    requires IsSgr(prefixColor) && IsSgr(color)
    requires EscFree(prefixSymbol) && EscFree(leftDelim) && EscFree(text) && EscFree(rightDelim)
    requires CannotContinue(leftDelim)
    requires TooLarge(width)
    ensures Strip(MessageLine(prefixColor, prefixSymbol, msg) + StatusLine(width, leftDelim, color, text, rightDelim)) ==
            [Space] + prefixSymbol + [Tab] + Strip(msg) + (BadWidth + leftDelim + (text + rightDelim + [Newline]))
  {
    StatusLineCannotContinue(width, leftDelim, color, text, rightDelim);
    StripMessageLine(prefixColor, prefixSymbol, msg, StatusLine(width, leftDelim, color, text, rightDelim));
    StripStatusBadWidth(width, leftDelim, color, text, rightDelim);
  }

  class Logger {
    var Padding: int64
    var lastMessageLen: int64
    var MessagePrefixColor: Color
    var MessageOkColor: Color
    var MessageErrorColor: Color
    var MessagePrefixSymbol: Symbol
    var DoneSymbol: Symbol
    var MessageOkText: seq<byte>
    var MessageErrorText: seq<byte>
    var MessageDoneText: seq<byte>
    var StatusLeftDelim: seq<byte>
    var StatusRightDelim: seq<byte>
    /** Everything printed so far, in place of standard output. */
    var output: seq<byte>

    /** `NewLogger`: the defaults, with `lastMessageLen` at Go's zero value. */
    constructor ()
      ensures Padding == 70 && lastMessageLen == 0
      ensures MessagePrefixColor == Cyan && MessageOkColor == Green && MessageErrorColor == Red
      ensures MessagePrefixSymbol == Arrow && DoneSymbol == ThumbsUp
      ensures MessageOkText == OkText && MessageErrorText == ErrorText && MessageDoneText == DoneText
      ensures StatusLeftDelim == LeftDelim && StatusRightDelim == RightDelim
      ensures output == []
    {
      Padding := 70;
      lastMessageLen := 0;
      MessagePrefixColor := Cyan;
      MessageOkColor := Green;
      MessageErrorColor := Red;
      MessagePrefixSymbol := Arrow;
      MessageOkText := OkText;
      MessageErrorText := ErrorText;
      MessageDoneText := DoneText;
      DoneSymbol := ThumbsUp;
      StatusLeftDelim := LeftDelim;
      StatusRightDelim := RightDelim;
      output := [];
    }

    /**
     * Prints the prefix and the already formatted message, without a newline,
     * and records the message's length once every escape is removed.
     */
    method Message(msg: seq<byte>)
      requires |msg| <= MaxInt64
      modifies this`output, this`lastMessageLen
      ensures output == old(output) + MessageLine(MessagePrefixColor, MessagePrefixSymbol, msg)
      ensures lastMessageLen == |Strip(msg)|
    {
      output := output + MessageLine(MessagePrefixColor, MessagePrefixSymbol, msg);
      lastMessageLen := |Strip(msg)|;
    }

    /** Prints a status marker after the last message, aligned by its recorded length. */
    method Status(color: Color, text: seq<byte>)
      modifies this`output
      ensures output == old(output) + StatusLine(StatusWidth(Padding, lastMessageLen), StatusLeftDelim, color, text, StatusRightDelim)
    {
      output := output + StatusLine(StatusWidth(Padding, lastMessageLen), StatusLeftDelim, color, text, StatusRightDelim);
    }

    method Ok()
      modifies this`output
      ensures output == old(output) + StatusLine(StatusWidth(Padding, lastMessageLen), StatusLeftDelim, MessageOkColor, MessageOkText, StatusRightDelim)
    {
      Status(MessageOkColor, MessageOkText);
    }

    method Err()
      modifies this`output
      ensures output == old(output) + StatusLine(StatusWidth(Padding, lastMessageLen), StatusLeftDelim, MessageErrorColor, MessageErrorText, StatusRightDelim)
    {
      Status(MessageErrorColor, MessageErrorText);
    }

    /** Prints the closing banner; it reads no session state. */
    method Done()
      modifies this`output
      ensures output == old(output) + DoneLine(DoneSymbol, MessageDoneText)
    {
      output := output + DoneLine(DoneSymbol, MessageDoneText);
    }
  }

  /** What `DefaultLine` needs of the defaults: colours, text and delimiters as the status lemmas require. */
  lemma DefaultsArePlain()
    ensures IsSgr(Cyan) && IsSgr(Green) && EscFree(Arrow)
    ensures EscFree(OkText) && EscFree(RightDelim) && EscFree(LeftDelim) && CannotContinue(LeftDelim)
    ensures RuneCount(LeftDelim) == 1
  {
    assert LeftDelim[1..] == [];
  }

  /** The bytes a fresh logger prints for `Message(msg)` followed by `Ok()`. */
  function DefaultLine(msg: seq<byte>): seq<byte>
  {
    MessageLine(Cyan, Arrow, msg) + StatusLine(70 - |Strip(msg)|, LeftDelim, Green, OkText, RightDelim)
  }

  /**
   * With the defaults, a message of fewer than 70 visible bytes is followed
   * by spaces up to column 69 and "[ok]" with its '[' in column 70 of the
   * message part; one of exactly 70 is followed by "[ok]" at once.
   */
  lemma DefaultLineAligned(msg: seq<byte>)
    requires |Strip(msg)| <= 70
    ensures var n := |Strip(msg)|;
            && Strip(DefaultLine(msg)) ==
               [Space] + Arrow + [Tab] + Strip(msg) + (Spaces(69 - n) + LeftDelim + (OkText + RightDelim + [Newline]))
            && (n < 70 ==> |Strip(msg) + Spaces(69 - n) + LeftDelim| == 70)
  {
    DefaultsArePlain();
    var w := 70 - |Strip(msg)|;
    MessageThenStatusRight(Cyan, Arrow, msg, w, LeftDelim, Green, OkText, RightDelim);
    assert w - RuneCount(LeftDelim) == 69 - |Strip(msg)|;
    if |Strip(msg)| < 70 {
      DelimColumn(Strip(msg));
    }
  }

  /** After `front` and the padding, the default delimiter is the 70th byte. */
  lemma DelimColumn(front: seq<byte>)
    requires |front| < 70
    ensures |front + Spaces(69 - |front|) + LeftDelim| == 70
  {
  }

  /** A message wider than 70 visible bytes puts the spaces between '[' and "ok". */
  lemma DefaultLineOverlong(msg: seq<byte>)
    requires 70 < |Strip(msg)| <= 70 + MaxWidth
    ensures Strip(DefaultLine(msg)) ==
            [Space] + Arrow + [Tab] + Strip(msg) + (LeftDelim + Spaces(|Strip(msg)| - 71) + (OkText + RightDelim + [Newline]))
  {
    DefaultsArePlain();
    var w := 70 - |Strip(msg)|;
    MessageThenStatusLeft(Cyan, Arrow, msg, w, LeftDelim, Green, OkText, RightDelim);
    assert -w - RuneCount(LeftDelim) == |Strip(msg)| - 71;
  }

  /** A message wider than fmt's width limit gets "%!(BADWIDTH)" before "[ok]". */
  lemma DefaultLineBadWidth(msg: seq<byte>)
    requires 70 + MaxWidth < |Strip(msg)|
    ensures Strip(DefaultLine(msg)) ==
            [Space] + Arrow + [Tab] + Strip(msg) + (BadWidth + LeftDelim + (OkText + RightDelim + [Newline]))
  {
    DefaultsArePlain();
    MessageThenStatusBadWidth(Cyan, Arrow, msg, 70 - |Strip(msg)|, LeftDelim, Green, OkText, RightDelim);
  }

  /** What a terminal shows of `DefaultLine(msg)`, in each of the three width cases. */
  predicate DefaultLineShows(msg: seq<byte>, out: seq<byte>)
  {
    var n := |Strip(msg)|;
    var front := [Space] + Arrow + [Tab] + Strip(msg);
    var marker := OkText + RightDelim + [Newline];
    && (n <= 70 ==> Strip(out) == front + (Spaces(69 - n) + LeftDelim + marker))
    && (70 < n <= 70 + MaxWidth ==> Strip(out) == front + (LeftDelim + Spaces(n - 71) + marker))
    && (70 + MaxWidth < n ==> Strip(out) == front + (BadWidth + LeftDelim + marker))
  }

  lemma DefaultLineVisible(msg: seq<byte>)
    ensures DefaultLineShows(msg, DefaultLine(msg))
  {
    var n := |Strip(msg)|;
    if n <= 70 {
      DefaultLineAligned(msg);
    } else if n <= 70 + MaxWidth {
      DefaultLineOverlong(msg);
    } else {
      DefaultLineBadWidth(msg);
    }
  }

  /** A fresh logger prints a message and then "ok" (shlog.go:58-86); `out` is what it printed. */
  method DefaultMessageThenOk(msg: seq<byte>) returns (out: seq<byte>)
    requires |msg| <= MaxInt64
    ensures out == DefaultLine(msg)
    ensures DefaultLineShows(msg, out)
  {
    var l := new Logger();
    l.Message(msg);
    ghost var line := MessageLine(Cyan, Arrow, msg);
    assert l.output == line;
    var n := |Strip(msg)|;
    assert l.lastMessageLen == n;
    assert StatusWidth(l.Padding, l.lastMessageLen) == 70 - n;
    l.Ok();
    out := l.output;
    assert out == line + StatusLine(70 - n, LeftDelim, Green, OkText, RightDelim);
    DefaultLineVisible(msg);
  }
}
