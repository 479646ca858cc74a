# shlog in Dafny

shlog is a small coloured logger for command-line programs, written in Go. A
`Logger` prints a message after a coloured prefix and leaves the cursor on the
same line. Later it prints a coloured status marker such as `[ok]`, padded with
spaces. When the visible message is shorter than `Padding` (70 by default) by
at most a million bytes, the marker's `[` is the `Padding`-th column counted
from the first byte of the message. To line the marker up, the logger
remembers the visible length of the last message. That
length is the message's length in bytes after every ANSI colour escape
(`ESC [ digits m`, the ECMA-48 "Select Graphic Rendition" sequence) has been
removed.

This project models that logic and proves its properties:

- `bytes.dfy` (module `Bytes`): bytes, space padding, and 64-bit wrap-around
  of Go's `int`.
- `sgr.dfy` (module `Sgr`): the escape pattern `\x1b\[\d+m` and its
  replace-all with `""`, written as a hand-made scanner. It removes the
  leftmost match, continues after it, and treats `\d` as ASCII digits only,
  as RE2 does.
- `utf8.dfy` (module `Utf8`): Go's rune count, the unit `fmt` uses for a
  field width. It follows Go's decoding rules, so every invalid byte counts
  as one rune.
- `fmt.dfy` (module `Fmt`): the `%*s` directive with a width taken from an
  argument, including a negative width (left-justify) and a width beyond
  one million (`%!(BADWIDTH)`).
- `shlog.dfy` (module `Shlog`): the colour and symbol constants, the byte
  lines each print method writes, and the class `Logger`. Its fields are
  the Go struct's fields, plus `output`, which stands for standard output:
  every print method appends to it.

Messages are byte sequences because Go's `len` counts bytes. The two
symbols are stored as their UTF-8 bytes.

Four details of the code are easy to miss, and the model keeps each of them:

- When the last message is longer than `Padding`, by at most one million,
  the width passed to `%*s` is negative, and fmt left-justifies: it prints
  `[` and then pads with spaces, so the spaces fall between `[` and the
  status text (`StatusLeftJustified`, `MessageThenStatusLeft`).
- The field width also counts the delimiter, in runes, so with the one-rune
  `[` the code prints `Padding - lastMessageLen - 1` spaces before `[`. No
  spaces are printed when `|Padding - lastMessageLen|` is at most the
  delimiter's rune count; with `[`, that is at `Padding - 1`, `Padding` and
  `Padding + 1`.
- The message is measured in bytes, not in characters, while the delimiter
  is measured in runes.
- A width beyond one million in either direction makes fmt print
  `%!(BADWIDTH)` and then the delimiter with no padding.

## Model

| member | source | states |
|---|---|---|
| `Sgr.DigitRun` | shlog.go:40 | `\d+`: the length of the longest run of ASCII digits at the start, with every byte before it a digit and the byte at it not one |
| `Sgr.MatchLen` | shlog.go:40 | the pattern anchored at the start: a nonzero result is a prefix that is exactly one escape |
| `Sgr.MatchLenUnique` | shlog.go:40 | every prefix that is one escape has the length `MatchLen` finds, so at most one prefix matches and 0 means none does |
| `Sgr.Strip` | shlog.go:77 | removing the escapes never makes a message longer |
| `Sgr.StripSgrPrefix` | shlog.go:77 | an escape at the front is removed and the rest is stripped as if it stood alone |
| `Sgr.StripEscFreePrefix` | shlog.go:77 | bytes with no ESC among them pass through unchanged in front of whatever follows |
| `Sgr.StripEscFree` | shlog.go:77 | a message with no ESC byte is its own visible text, so its visible length is its full length |
| `Sgr.StripConcat` | shlog.go:77 | stripping distributes over a split when what follows cannot continue an escape begun before it |
| `Sgr.StripUnchangedIff` | shlog.go:77 | stripping leaves a message unchanged exactly when it contains no escape anywhere, and otherwise makes it strictly shorter |
| `Sgr.StripKeepsText` | shlog.go:77 | every byte other than ESC, `[`, a digit or `m` keeps its number of occurrences |
| `Sgr.StripNotIdempotent` | shlog.go:77 | `ESC [ ESC [ 1 m 1 m` strips to `ESC [ 1 m`, which strips again to nothing, so stripping is not idempotent |
| `Utf8.RuneLen` | shlog.go:81 | the first rune's size as Go decodes it: between 1 and the length, and more than 1 only for a lead byte followed by continuation bytes |
| `Utf8.RuneLenEncode` | shlog.go:81 | the decoder takes the UTF-8 encoding of any scalar value (built by the independent encoder `Encode`) whole, whatever follows it |
| `Utf8.RuneLenDecodes` | shlog.go:81 | conversely, every multi-byte rune the decoder takes is the encoding of some scalar value |
| `Utf8.RuneCount` | shlog.go:81 | the runes fmt counts in a string: no more than its bytes, and zero only for the empty string |
| `Utf8.RuneCountAsciiPrefix` | shlog.go:81 | ASCII bytes in front add one rune each |
| `Utf8.RuneCountEncode` | shlog.go:81 | the encoding of a scalar value counts as exactly one rune in front of whatever follows |
| `Utf8.RuneCountAsciiSuffix` | shlog.go:81 | ASCII bytes behind add one rune each, even after an unfinished multi-byte rune |
| `Bytes.Spaces` | shlog.go:81 | fmt's padding: `n` space bytes, none when `n` is not positive |
| `Bytes.IntWrap` | shlog.go:81 | `Padding - lastMessageLen` as a 64-bit `int`: unchanged when in range, otherwise congruent modulo 2^64 |
| `Fmt.PadString` | shlog.go:81 | `%*s`: right-justified among spaces for a width of 0 to one million, left-justified for -1 to minus one million, `%!(BADWIDTH)` and no padding beyond one million either way |
| `Fmt.PadStringWidth` | shlog.go:81 | for a width in range, the field is `abs(width)` runes wide, or as wide as the string if the string is wider |
| `Shlog.ColorIsSgr` | shlog.go:23-32 | every colour constant, the two-digit `Grey` included, is exactly one match of the escape pattern |
| `Shlog.SymbolsAreOneRune` | shlog.go:35-36 | the arrow and thumbs-up symbols are the UTF-8 encodings of U+27AF and U+1F44D, so one rune each |
| `Shlog.StripColored` | shlog.go:23-40 | a colour, ESC-free text and `Reset` strip to the text alone |
| `Shlog.StatusLeadingSpaces` | shlog.go:81 | with a one-rune left delimiter, `lastMessageLen <= Padding` and `Padding - lastMessageLen` at most one million, `Status` writes exactly `Padding - lastMessageLen - 1` spaces (none when equal), then the delimiter and the marker |
| `Shlog.StatusLeftJustified` | shlog.go:81 | when `lastMessageLen > Padding` by at most one million, `Status` writes the delimiter first and the padding after it |
| `Shlog.StripMarker` | shlog.go:81 | of the marker, only the text, the right delimiter and the newline are visible |
| `Shlog.StripMessageLine` | shlog.go:76-77 | of a message line, only a space, the prefix symbol, a tab and the visible message are visible, whatever cannot continue an escape follows it |
| `Shlog.StatusLineCannotContinue` | shlog.go:81 | when the left delimiter cannot itself continue an escape, no escape left unfinished by the message can run into a status line |
| `Shlog.StripStatusRight` | shlog.go:81 | visible status line for a width of 0 to one million: spaces, the delimiter ending max(`width`, its rune count) runes after the message, the text |
| `Shlog.StripStatusLeft` | shlog.go:81 | visible status line for a width from -1 to minus one million: the delimiter, then spaces, then the text |
| `Shlog.StripStatusBadWidth` | shlog.go:81 | visible status line for a width beyond fmt's limit: `%!(BADWIDTH)`, the delimiter, the text |
| `Shlog.MessageThenStatusRight` | shlog.go:76-81 | a message line followed by a status line with a width of 0 to one million shows the prefix symbol, the visible message, the padded delimiter and the text |
| `Shlog.MessageThenStatusLeft` | shlog.go:76-81 | the same with a width from -1 to minus one million: the spaces come after the delimiter |
| `Shlog.MessageThenStatusBadWidth` | shlog.go:76-81 | the same with a width beyond the limit: `%!(BADWIDTH)` before the delimiter |
| `Shlog.Logger.constructor` | shlog.go:58-72 | `NewLogger`: `Padding` 70, prefix Cyan and Arrow, ok Green and "ok", error Red and "err", done ThumbsUp and "All done", delimiters `[` and `]`, `lastMessageLen` 0, nothing printed yet |
| `Shlog.Logger.Message` | shlog.go:74-78 | appends `MessageLine`: the prefix colour, a space, the prefix symbol, a tab, `Reset` and the message, with no newline; `lastMessageLen` becomes the stripped message's length; nothing else changes |
| `Shlog.Logger.Status` | shlog.go:80-82 | appends `StatusLine` at width `StatusWidth(Padding, lastMessageLen)`: the left delimiter padded to `Padding - lastMessageLen` (wrapped to 64 bits), then `Marker`: the colour, the text, `Reset`, the right delimiter and a newline; no other field changes |
| `Shlog.Logger.Ok` | shlog.go:84-86 | appends exactly what `Status` appends for the ok colour and text |
| `Shlog.Logger.Err` | shlog.go:88-90 | appends exactly what `Status` appends for the error colour and text |
| `Shlog.Logger.Done` | shlog.go:92-94 | appends `DoneLine`: a newline, a space, the done symbol, a tab, the done text and two newlines; the output does not depend on `lastMessageLen`, and no other field changes |
| `Shlog.DefaultLineAligned` | shlog.go:58-86 | with the defaults, after a message of `n` < 70 visible bytes, "[ok]" follows `69 - n` spaces, which puts its `[` in column 70 of the message part; at exactly 70, "[ok]" follows the message directly |
| `Shlog.DefaultLineOverlong` | shlog.go:58-86 | with the defaults, after a message wider than 70 but by at most a million bytes, `[` comes first and the spaces stand between it and "ok" |
| `Shlog.DefaultLineBadWidth` | shlog.go:58-86 | with the defaults, after a message more than a million bytes wider than 70, `%!(BADWIDTH)` precedes "[ok]" |
| `Shlog.DefaultLineVisible` | shlog.go:58-86 | for every message, the visible default line is as one of the three lemmas above states, chosen by the message's visible length |
| `Shlog.DefaultMessageThenOk` | shlog.go:58-86 | a fresh `Logger` given `Message(msg)` then `Ok()` prints exactly `DefaultLine(msg)`, whose visible text is as `DefaultLineVisible` states |

## Left out

- The `fmt.Sprintf(format, v...)` interpolation in `Message` (shlog.go:75) is Go's formatting library. `Message` takes the message already formatted.
- Writes to standard output are appends to the `output` field. Buffering and I/O errors are not modelled.
- `Color.String` and `Symbol.String` (shlog.go:11-19) are the identity. `Color` and `Symbol` are type synonyms for byte sequences.
- The general Go `regexp` engine is left out; only the one fixed pattern is modelled. Go's regexp decodes the input as UTF-8, but every byte of the pattern is ASCII. ASCII bytes never occur inside a multi-byte rune, so a byte-by-byte scan finds the same matches.
- The terminal display width of wide or combining characters is left out. The code measures the message in bytes and the delimiter in runes, never in display cells.
- Concurrency is left out. The logger is not synchronised.
- Go's `int` is taken to be 64 bits wide. The 32-bit case is not modelled.
- Messages longer than 2^63 - 1 bytes cannot exist in Go. The precondition of `Message` excludes them.
