# StreamTokenizer in Dafny

A model of `StreamTokenizer` (`tokenizer.ts`). It is a configurable lexical
scanner in the style of Java's `java.io.StreamTokenizer`. The model covers:

- the 256-entry character classification table and its mutators;
- the option setters;
- the `nextToken` state machine, together with `pushBack` and `lineno`.

Each token is a number, a word, a quoted string, an end of line, an end of
input, or an ordinary character.

The model is functional. The tokenizer's fields form one immutable
`Tokenizer.Scanner` record, and every public method is a function from the old
record to the new one. The token `nextToken` returns is the `ttype` of the
record `Tokenizer.NextToken` produces.

## Modules

The modules follow the structure of `nextToken`:

| file | module | contents |
|---|---|---|
| `chars.dfy` | `Chars` | UTF-16 code units; the cursor over the input string; line-terminator counting |
| `syntax_table.dfy` | `SyntaxTable` | the classification table (one `bv8` per code) and its mutators |
| `lexemes.dfy` | `Lexemes` | the loops `nextToken` runs: whitespace, digits, words, strings and escapes, both comment styles |
| `tokenizer.dfy` | `Tokenizer` | scanner state, option setters, `nextToken`, `pushBack`, `lineno` |
| `tokenizer_props.dfy` | `TokenizerProps` | whole-input properties of `nextToken` |
| `block_comment_as_written.dfy` | `BlockCommentAsWritten` | the `/* */` loop exactly as written, beside the corrected one (see Findings) |

## Modelling choices

- **Input.** The input string is a `seq<Code>` of UTF-16 code units, read by a `Reader` cursor.
- **End of input.** Reading at the end returns the distinguished value `Eof` and does not advance. `Eof` is what every end-of-input test in `nextToken` is written for:
  - the `isNaN` tests (lines 214, 223, 397);
  - the `c < 0`, `d >= 0` and `c >= 0` tests (lines 210, 254, 305, 323, 403, 409, 420);
  - the digit test after a leading `-` (line 264). In the source, `NaN` fails every comparison there, so a `-` at the end of input falls into the number loop and gives TT_NUMBER with value -0. In the model, `Eof` is not a digit or `.`, so that `-` is returned as DASH (45).

  `Eof` fires every one of them. This also gives a `decreases` measure for the restarts after a comment: unread input plus one for a held character.
- **Look-ahead.** `peekc` is the datatype `Peek = NeedChar | SkipLF | Held(ch)`.
- **Token type.** `ttype` keeps the source's integer constants: TT_EOF = -1, TT_EOL = 10, TT_NUMBER = -2, TT_WORD = -3, TT_NOTHING = -4.
- **Number value.** The value of a number is the exact triple `Numeral(neg, mantissa, scale)`, meaning ±mantissa / 10^scale.
- **The `/` comment test.** At line 408, `ct["/"]` indexes the table with a string. That lookup is `undefined`, so the comment-class test for `/` is never true. The model keeps this as written: with either slash comment style on, a `/` that does not open an enabled comment is returned as `/`, even when `/` has the COMMENT class (`TokenizerProps.SlashAlone`). The evident intent was the entry for code 47.
- **TT_EOL at the end of whitespace.** Whitespace that runs into end of input returns TT_EOL whether or not line ends are significant (lines 254-256). So TT_EOL does not only mark significant line ends; the model keeps this as written.
- **The provisional `ttype = c`.** Line 227 assigns it, but every path out of `nextToken` overwrites it, so it is not stored.

## Model

| member | source | states |
|---|---|---|
| Chars.Read | tokenizer.ts:195-197 | a character is read exactly when input remains: it is the code at the cursor and the cursor moves by one; otherwise `Eof` with the cursor unchanged |
| SyntaxTable.ResetSyntax | tokenizer.ts:77-81 | every one of the 256 entries is cleared |
| SyntaxTable.WordChars | tokenizer.ts:90-106 | ALPHA is or-ed into exactly the codes of [max(low,0), min(hi,255)]; every other entry, and every other flag, is unchanged |
| SyntaxTable.WhitespaceChars | tokenizer.ts:109-125 | exactly the codes of the clamped range are overwritten with WHITESPACE alone; the others are unchanged |
| SyntaxTable.OrdinaryChars | tokenizer.ts:127-143 | exactly the codes of the clamped range are cleared; the others are unchanged |
| SyntaxTable.OrdinaryChar | tokenizer.ts:145-150 | only the entry of `ch` is cleared; a code outside [0,255] leaves the table as it was |
| SyntaxTable.CommentChar | tokenizer.ts:152-157 | only the entry of `ch` is overwritten with COMMENT; a code outside [0,255] changes nothing |
| SyntaxTable.QuoteChar | tokenizer.ts:159-164 | only the entry of `ch` is overwritten with QUOTE; a code outside [0,255] changes nothing |
| SyntaxTable.ParseNumbers | tokenizer.ts:166-173 | DIGIT is or-ed into `0`-`9`, `.` and `-`, keeping their other flags; nothing else changes |
| SyntaxTable.SetDefaultSyntax | tokenizer.ts:65-74 | each entry equals `DefaultEntry`, a per-code description: the later overwriting setters win over the earlier or-ing ones |
| SyntaxTable.DefaultSyntaxFromReset | tokenizer.ts:65-74 | from a cleared table: letters and 160-255 are exactly ALPHA; 0-32 WHITESPACE; `/` COMMENT; both quote marks QUOTE; digits, `.` and `-` DIGIT; every other code 33-159 ordinary |
| SyntaxTable.RangeMutatorsIdempotent | tokenizer.ts:90-143 | applying `wordChars`, `whitespaceChars` or `ordinaryChars` twice equals applying it once |
| SyntaxTable.CharSettersIdempotent | tokenizer.ts:145-164 | applying `ordinaryChar`, `commentChar` or `quoteChar` twice equals applying it once |
| SyntaxTable.ParseNumbersIdempotent | tokenizer.ts:166-173 | `parseNumbers` twice equals `parseNumbers` once |
| SyntaxTable.DefaultSyntaxIdempotent | tokenizer.ts:65-74 | `setDefaultSyntax` twice equals `setDefaultSyntax` once, from any table |
| SyntaxTable.RangeMutatorsClamp | tokenizer.ts:95-101 | a range lying wholly outside [0,255], or empty, leaves the table unchanged under all three range mutators |
| Tokenizer.Init | tokenizer.ts:18-58 | a new tokenizer: all-zero table, every option off, line 1, look-ahead NEED_CHAR, `ttype` TT_NOTHING, no text or value |
| Tokenizer.EolIsSignificant | tokenizer.ts:176-178 | sets its option and changes no other field |
| Tokenizer.SlashStarComments | tokenizer.ts:181-183 | sets its option and changes no other field |
| Tokenizer.SlashSlashComments | tokenizer.ts:186-188 | sets its option and changes no other field |
| Tokenizer.LowerCaseMode | tokenizer.ts:190-192 | sets its option and changes no other field |
| Tokenizer.Resolve | tokenizer.ts:209-226 | a held character is used as is; NEED_CHAR reads one; SKIP_LF reads past one LF; `Eof` only when nothing is held and the input is exhausted |
| Tokenizer.NumberToken | tokenizer.ts:260-269 | the result is a number token, or a lone `-` returned as DASH with the value untouched |
| Tokenizer.NumberValue | tokenizer.ts:270-297 | a number token with the sign given; the held look-ahead is not a digit |
| Tokenizer.WordToken | tokenizer.ts:300-313 | a non-empty word; lowercase-mode text has no `A`-`Z`; the held look-ahead is not a word part |
| Tokenizer.QuotedToken | tokenizer.ts:315-378 | the token type is the quote; the closing quote is consumed (NEED_CHAR); a CR, LF or end of input is held |
| Tokenizer.SlashToken | tokenizer.ts:380-417 | a comment restarts the scan with a smaller measure; otherwise TT_EOF for an unclosed block comment, or `/` with the next character held |
| Tokenizer.Dispatch | tokenizer.ts:260-425 | a returned token is well-formed; a comment restarts with a smaller measure; a character with no class (and not a `/` under a slash style) is returned as its own code, nothing else changed |
| Tokenizer.Step | tokenizer.ts:206-258 | one pass clears the text; it returns a well-formed token or restarts with a strictly smaller measure |
| Tokenizer.Scan | tokenizer.ts:200-426 | `nextToken` terminates with a well-formed token: never TT_NOTHING; text only for words and quoted strings; a value for numbers; TT_EOF only when input is exhausted |
| Tokenizer.NextToken | tokenizer.ts:200-204 | a pushed-back token is returned unchanged with the flag cleared; otherwise a fresh token is scanned; table, options and input never change |
| Tokenizer.PushBack | tokenizer.ts:429-433 | does nothing while `ttype` is TT_NOTHING; otherwise arms the replay and changes nothing else |
| Tokenizer.Lineno | tokenizer.ts:436-438 | `lineno()` reports the scanner's line counter, which starts at 1 (`Tokenizer.Init`) and never falls (`TokenizerProps.LinenoNeverFalls`) |
| TokenizerProps.LinenoNeverFalls | tokenizer.ts:436-438 | `lineno` never goes down across `nextToken`, and neither `pushBack` nor a replayed token changes it |
| Lexemes.SkipBlanks | tokenizer.ts:233-258 | the whitespace loop stops at a non-WHITESPACE character, or returns TT_EOL; SKIP_LF is armed only with significant line ends |
| Lexemes.SkipBlanksToBreak | tokenizer.ts:233-250 | with significant line ends, blanks without CR or LF followed by a blank CR or LF end the loop with an end of line just past the terminator, the counter up by one and SKIP_LF armed exactly for a CR |
| Lexemes.SkipBlanksCountsLines | tokenizer.ts:235-258 | a whitespace run is skipped as a whole; the counter rises by its line terminators, a CR-LF pair once |
| Lexemes.ScanDigits | tokenizer.ts:273-285 | the number loop stops at a character that is not a digit, and at a `.` only when it advanced or a `.` was already taken; it stays in the same input and the mantissa and scale never fall |
| Lexemes.ScanDigitsSecondDot | tokenizer.ts:273-285 | when no `.` was taken before the loop and its first character is not one, the loop stops at a `.` only if a first `.` lies between its start and the stopping character |
| Lexemes.ScanDigitsRun | tokenizer.ts:273-284 | a run of digits is accumulated digit by digit, and after the dot each one is counted in the scale |
| Lexemes.AccumulateValue | tokenizer.ts:278 | the accumulator `v*10 + d` over digits `ds` equals `v * 10^|ds|` plus the decimal value of `ds` |
| Lexemes.NumeralValue | tokenizer.ts:270-296 | the triple for `ip . fp` stands for the real number ±(ip + fp / 10^|fp|), the value that the source's division `v / denom` approximates |
| Lexemes.ScanNumeral | tokenizer.ts:270-285 | over `ip [. fp]`: the mantissa is the decimal value of all the digits and the scale is `|fp|`; a second `.` stops the loop; the stop character is handed back |
| Lexemes.ScanWord | tokenizer.ts:301-307 | the word loop keeps the text gathered so far and appends only word parts; it stops at a character that is not a word part, or at end of input |
| Lexemes.ScanWordRun | tokenizer.ts:301-307 | the word is exactly the longest run of ALPHA/DIGIT characters; the character after it is handed back |
| Lexemes.LowerCase | tokenizer.ts:309-311 | same length; no `A`-`Z` left; every other code unchanged; each letter moved by 32 |
| Lexemes.ScanEscape | tokenizer.ts:324-366 | an escape starting with an octal digit decodes below 256 (below 64 when the first digit is above `3`); any other character decodes by the named-escape table; a backslash at end of input decodes to 0 |
| Lexemes.ScanEscapeOctal | tokenizer.ts:328-340 | one to three octal digits, taken greedily (a third only after a first digit up to `3`), decode to their octal value, and the character after them is handed back: `\12` gives 10, `\477` gives 39 and hands back `7` |
| Lexemes.NamedEscape | tokenizer.ts:342-364 | a character that is not a named escape letter stands for itself; a letter that changes maps to a control code 7-13 whose escape letter it is |
| Lexemes.ScanEscapeNamed | tokenizer.ts:342-366 | a backslash and a character that is not an octal digit decode to the named-escape value of that character, and the character after it is handed back |
| Lexemes.DecodeOctal | tokenizer.ts:328-340 | the three-digit octal spelling of a code below 256 decodes to that code and consumes four characters |
| Lexemes.DecodeNamed | tokenizer.ts:342-365 | `\a \b \t \n \v \f \r` decode to 7, 8, 9, 10, 11, 12, 13 |
| Lexemes.ScanQuoted | tokenizer.ts:322-372 | the string loop stops only at the quote, CR, LF or end of input |
| Lexemes.ScanQuotedEscape | tokenizer.ts:322-374 | round trip: the string loop over `Escape(q, s)` followed by a terminator yields exactly `s`, and hands back the terminator |
| Lexemes.SkipToLineEnd | tokenizer.ts:419-421 | input is discarded up to a CR, LF or end of input, which is handed back |
| Lexemes.SkipToLineEndRun | tokenizer.ts:419-421 | a comment text without CR or LF is discarded in full, stopping at the terminator after it |
| Lexemes.SkipBlockComment | tokenizer.ts:383-399 | (corrected loop, see Findings) the block comment loop stays in the same input and moves forward; it ends closed having read at least one code, or unclosed at end of input; the counter never falls |
| Lexemes.SkipBlockCommentClosesOnPair | tokenizer.ts:383-399 | (corrected loop, see Findings) a comment is closed only right after a `/` whose preceding code is a `*`: the previous code when the `/` is the first one read, otherwise the code before it in the input |
| Lexemes.SkipBlockCommentRun | tokenizer.ts:383-401 | (corrected loop, see Findings) a comment with no inner `*/` is skipped through its closing pair; the counter rises once per line terminator, a CR-LF pair once |
| Lexemes.SkipBlockCommentUnclosed | tokenizer.ts:384-398 | (corrected loop, see Findings) an unclosed comment runs to end of input and counts every line terminator on the way |
| BlockCommentAsWritten.SkipBlockComment | tokenizer.ts:383-399 | the loop as written stays in the same input and moves forward; it ends closed having read at least one code, or unclosed at end of input; the counter never falls |
| BlockCommentAsWritten.SkipBlockCommentClosesOnPair | tokenizer.ts:383-399 | the loop as written also closes a comment only right after a `*` `/` pair, the `*` being the previous code or the code before the `/` in the input |
| BlockCommentAsWritten.SkipBlockCommentRun | tokenizer.ts:383-401 | for every comment with no inner `*/`, the loop as written skips through the closing pair and raises the counter by `WrittenBreaks(b)`: one per terminator, after which the character following the terminator is skipped untested |
| BlockCommentAsWritten.WrittenBreaksExact | tokenizer.ts:384-396 | the loop as written never counts more lines than the corrected one, and counts the same exactly when no counted terminator is followed by a character it drops: an LF, or a CR not followed by LF |
| BlockCommentAsWritten.SecondBreakUncounted | tokenizer.ts:384-396 | on the comment text LF LF, the loop as written counts one line; the corrected loop counts two |
| TokenizerProps.TextIrrelevant | tokenizer.ts:207 | the text left by the previous token has no effect on the next one |
| TokenizerProps.PushBackReplays | tokenizer.ts:201-204 | after `pushBack`, the next call returns the very same state; the call after that equals the call without the push-back |
| TokenizerProps.PushBackBeforeFirstToken | tokenizer.ts:429-433 | before any token, `pushBack` has no effect on the next call |
| TokenizerProps.EofIsSticky | tokenizer.ts:209-226 | with input exhausted and nothing held, the result is TT_EOF with only the text cleared, and the next call gives the same |
| TokenizerProps.OrdinaryChar | tokenizer.ts:425 | a classless character is returned as its own code and consumed; nothing else changes |
| TokenizerProps.BlanksAreSkipped | tokenizer.ts:233-258 | a whitespace run before a visible character is skipped as if absent, the line counter rising by its line terminators |
| TokenizerProps.TrailingBlanks | tokenizer.ts:254-256 | whitespace that runs into end of input gives one TT_EOL, line terminators counted, then TT_EOF |
| TokenizerProps.SignificantLf | tokenizer.ts:233-250 | with significant line ends, a possibly empty run of blanks without CR or LF, then a blank LF, gives TT_EOL just past the LF, the LF counted |
| TokenizerProps.SignificantCr | tokenizer.ts:233-241 | with significant line ends, a possibly empty run of blanks without CR or LF, then a blank CR, gives TT_EOL just past the CR, the CR counted, and arms SKIP_LF |
| TokenizerProps.SkipLfAbsorbsOneLf | tokenizer.ts:212-220 | after SKIP_LF, one LF is read past without being counted, and scanning continues as usual |
| TokenizerProps.NumberLiteral | tokenizer.ts:260-298 | a numeral gives TT_NUMBER: sign, decimal value of all its digits, and digits after the dot as the scale; the next character is held |
| TokenizerProps.LoneDash | tokenizer.ts:262-267 | a `-` not followed by a digit or `.` is returned as 45; the next character is held |
| TokenizerProps.WordLiteral | tokenizer.ts:300-313 | a word is its longest ALPHA/DIGIT run, lowercased exactly in lowercase mode; the next character is held |
| TokenizerProps.QuotedLiteral | tokenizer.ts:315-378 | the escaped spelling of `text` gives `text`, with the quote as token type; a closing quote is consumed, a CR, LF or end is held |
| TokenizerProps.CommentCharSkipped | tokenizer.ts:419-423 | a COMMENT-class character discards up to the next CR or LF; then the scan goes on there, or gives TT_EOF |
| TokenizerProps.SlashSlashSkipped | tokenizer.ts:402-405 | `//` discards up to the next CR or LF; then the scan goes on there, or gives TT_EOF |
| TokenizerProps.BlockCommentSkipped | tokenizer.ts:382-401 | (corrected loop, see Findings) a closed `/* */` comment is skipped as if absent, the line counter rising once per line terminator inside |
| TokenizerProps.BlockCommentUnclosed | tokenizer.ts:384-398 | (corrected loop, see Findings) an unclosed `/*` comment runs to the end, counts its lines, and gives TT_EOF |
| TokenizerProps.SlashAlone | tokenizer.ts:406-415 | with a slash style on, a `/` opening no enabled comment gives 47 with the next character held, with or without the COMMENT class of `/` |

## Left out

- `toString` (tokenizer.ts:441-474): diagnostic formatting only.
- The floating-point arithmetic of numbers: the accumulation `v * 10 + d` in doubles (tokenizer.ts:278), which rounds above 2^53 and reaches `Infinity`, and the division and negation (tokenizer.ts:286-296). The value stays the exact `Numeral` triple; `Lexemes.Value` gives its meaning as a `real` (`Lexemes.NumeralValue`).
- Unicode case mapping by `toLowerCase` (tokenizer.ts:310). Lowercasing maps ASCII `A`-`Z` only.
- `ensureInteger` (tokenizer.ts:83-88). Every mutator takes integer codes directly.
- The constructor and the growable `buf` array. The input and the accumulated text are sequences.
- The JavaScript `NaN` end-of-input semantics (tokenizer.ts:196, 214, 223, 264), and the endless loops they cause. In particular, a `-` at end of input gives TT_NUMBER -0 in the source and DASH in the model. End of input is the value `Eof`, as described above.
- `String.fromCharCode(NaN)` for a backslash at end of input. It is modelled as code 0, the character that call produces.
- Tokenizer.Init: the source leaves `pushedBack`, `forceLower`, `sval` and `nval` undefined until first set. The model starts them as false and `None`.
- Lexemes.ScanQuotedEscape: states the round trip only for `Escape`, the canonical spelling of a string. Other spellings, such as short octal escapes or escaped ordinary characters, are covered one escape at a time by `Lexemes.ScanEscapeOctal` and `Lexemes.ScanEscapeNamed`. It also requires the quote not to be the backslash: when `\` is itself the quote character, it closes the string before it can start an escape (tokenizer.ts:323), so no spelling containing an escape round-trips.
- TokenizerProps.QuotedLiteral: inherits the two restrictions of `Lexemes.ScanQuotedEscape`. A quote character is always below 256, since the table has 256 entries.
- TokenizerProps.BlanksAreSkipped: requires the whitespace run not to end in a CR directly before an LF that follows it. In that case the CR swallows the LF even when LF has no WHITESPACE class, a case the lemma leaves to `Lexemes.SkipBlanks`.

## Findings

| source | as written | input that shows it | evidently intended | confidence | as-written member | corrected member |
|---|---|---|---|---|---|---|
| tokenizer.ts:384-396 | after a CR, LF or CR-LF inside `/* */`, the next character is read and made `prevc` without being tested, so a line terminator right after another one is not counted (except a CR whose LF follows: that LF is counted) | `/*` LF LF `*/`: the line counter rises by 1 | every line terminator inside the comment raises the counter by one, a CR-LF pair once (rises by 2) | not executed | BlockCommentAsWritten.SecondBreakUncounted | Lexemes.SkipBlockCommentRun |

`BlockCommentAsWritten.WrittenBreaksExact` gives the exact condition under which the two loops agree. `Tokenizer` scans block comments with the corrected loop `Lexemes.SkipBlockComment`.
