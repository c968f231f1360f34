# SCSV lexing layer in Dafny

This project models the lexing layer of the SCSV parser (`packages/scsv-parser/src/impl.ts`). It has two parts.

**The cursor.** `Ctx` reads a fixed input and keeps a position (offset, line, column) and a list of errors. `clone` forks it and `advanceTo` commits a fork back, which lets the lexers look ahead without side effects.

**Four lexers built on the cursor:**

- `parseDigitSpan` reads a run of decimal digits and skips whitespace between them.
- `parseNumber` reads an optional sign, an integer span, a `.` fraction and an `e`/`E` exponent.
- `parseNull` reads the end of input or one of `null`, `nil`, `none`.
- `parseString` reads a quoted or unquoted string. It handles the JSON escapes of section 7 of RFC 8259 and holds back whitespace until an unescaped code unit other than whitespace follows it.

The input is a sequence of UTF-16 code units (`CodeUnits.CodeUnit`), since JavaScript strings index that way. `cur` returns `Option` instead of the `"eof"` sentinel, and `Pos` is a value.

The cursor operations are methods on the class `Cursor.Ctx`. The lexers and their helpers are module-level methods that take a `Ctx`, as the source's free functions do. Each lexer's `ensures` ties it to a specification function: `DigitSpanAt`, `NumberAt`, `NullAt` or `StringAt`. Those functions return the value, the offset the cursor ends at, and the errors appended. Lemmas then state what the lexers promise in terms of those functions.

The number is kept as its exact parts (`Numbers.NumberParts`). Its value is an exact `real`: `Numbers.Value` is the formula as written, and `Numbers.SignedValue` is the formula with the sign applied to both terms.

`Strings.StringAt` takes a `flush` flag. `false` is the code as written. `true` writes the held-back whitespace out before an escape's code unit, as the code does before every other code unit (see Findings). `Strings.ParseString` is the code as written.

Module layout:

- `wrappers.dfy`, `code_units.dfy`: `Option` and the code-unit tables (`digitValue`, `hexDigitValue`, `stringEscapes`, `whitespaceChars`).
- `text.dfy`: decimal values, whitespace stripping and trimming, used as reference definitions.
- `cursor.dfy`: `Pos` and `Ctx`.
- `digit_span.dfy`, `number.dfy`, `number_facts.dfy`: `parseDigitSpan` and `parseNumber`, plus facts about them.
- `numeral.dfy`: numerals defined independently of the lexer, and what they denote.
- `null.dfy`: `parseNull`.
- `string_lexer.dfy`, `string_facts.dfy`: `parseString` and facts about it.
- `string_codec.dfy`: `JSON.stringify` on strings, and what the lexer reads back from it.

## Model

| member | source | states |
|---|---|---|
| CodeUnits.DigitValue | packages/scsv-parser/src/impl.ts:107-118 | A value exactly for the ten decimal digits, and then below 10 |
| CodeUnits.HexDigitValue | packages/scsv-parser/src/impl.ts:192-206 | A value exactly for the decimal digits and the letters `a`-`f` and `A`-`F`: a decimal digit has its `digitValue`, and a letter in either case is 10 plus its distance from `a` or `A`, so every value is below 16 |
| CodeUnits.HexDigitCaseInsensitive | packages/scsv-parser/src/impl.ts:192-206 | An upper-case hex letter has the same value as its lower-case form, 10 to 15 |
| CodeUnits.EscapeOf | packages/scsv-parser/src/impl.ts:182-191 | Exactly the eight letters `"`, `\`, `/`, `b`, `f`, `n`, `r`, `t` have an escape; `"`, `\` and `/` stand for themselves and the others for a control code unit below 0x20; `u`, digits and whitespace are not escape letters |
| Cursor.PosAt | packages/scsv-parser/src/impl.ts:57-65 | The position a cursor reaches at offset `i` by `next` from the start has offset `i`, and its line and column are 1-based (at least 1, starting from the defaults at `impl.ts:3-5`); `Ctx.Valid` ties every cursor's line and column to it |
| Cursor.SkipWs | packages/scsv-parser/src/impl.ts:90-92 | The offset where whitespace skipping stops: every unit skipped is space, tab, `\n` or `\r`, and the unit stopped on (if any) is not |
| Cursor.Ctx.constructor | packages/scsv-parser/src/impl.ts:30-34 | A new cursor is at offset 0, line 1, column 1, with no errors |
| Cursor.Ctx.Cur | packages/scsv-parser/src/impl.ts:36-40 | `cur` is a code unit exactly when the offset is inside the input, and then it is the unit at the offset |
| Cursor.Ctx.Clone | packages/scsv-parser/src/impl.ts:42-50 | A fresh fork over the same input, at the same position, with an empty error list |
| Cursor.Ctx.AdvanceTo | packages/scsv-parser/src/impl.ts:52-55 | The cursor adopts the fork's position and appends the fork's errors after its own |
| Cursor.Ctx.Next | packages/scsv-parser/src/impl.ts:57-65 | Offset and column grow by 1; on arriving at `\n` the line grows by 1 and the column resets to 1; offset stays within the input |
| Cursor.Ctx.Consume | packages/scsv-parser/src/impl.ts:67-76 | Succeeds exactly when the current unit is `x`; on success it moves by one, otherwise the position is unchanged |
| Cursor.Ctx.ConsumeString | packages/scsv-parser/src/impl.ts:78-84 | Succeeds exactly when `xs` occurs at the cursor; on success it moves by `\|xs\|`, otherwise the position is unchanged; errors are never changed |
| Cursor.Ctx.AddError | packages/scsv-parser/src/impl.ts:86-88 | Appends one error at the current position |
| Cursor.Ctx.SkipWhitespace | packages/scsv-parser/src/impl.ts:90-92 | The cursor ends where `SkipWs` stops, so `cur` is then not whitespace |
| Cursor.Ctx.Remainder | packages/scsv-parser/src/impl.ts:98-100 | The input before the cursor followed by the remainder is the whole input |
| Cursor.Ctx.SliceBetween | packages/scsv-parser/src/impl.ts:102-104 | Input before this cursor, the slice, and input from the other cursor on make the whole input; a reversed pair gives the empty text |
| DigitSpans.ParseDigitSpan | packages/scsv-parser/src/impl.ts:120-136 | Returns the span and ends where `DigitSpanAt` says, without errors |
| DigitSpans.DigitSpanReads | packages/scsv-parser/src/impl.ts:120-136 | With no digit at the cursor: no value, no move. Otherwise it steps only over digits and whitespace, stops at the first unit that is neither, and returns the decimal value and count of the digits read |
| DigitSpans.DigitSpanOfDigitsAndWhitespace | packages/scsv-parser/test/parseDigitSpan.ts:9-20 | A text that starts with a digit and holds only digits and whitespace reads to its end, worth its digits with the whitespace removed |
| DigitSpans.DigitSpanOfDecimalText | packages/scsv-parser/test/parseDigitSpan.ts:5-7 | The decimal text of any natural number reads back as that number |
| DigitSpans.DigitSpanOfRun | packages/scsv-parser/src/impl.ts:120-136 | A run of digits ended by a unit that is neither digit nor whitespace is read exactly: its value, its length, its end |
| DigitSpans.DigitSpanCount | packages/scsv-parser/src/impl.ts:124-130 | The count returned is the number of digits in the text stepped over |
| Numbers.SignAt | packages/scsv-parser/src/impl.ts:139-143 | The sign is negative exactly when the unit is `-`; the cursor moves exactly when it is `-` or `+`, and then stops after the whitespace that follows the sign: every unit stepped over after the sign is whitespace and the unit stopped on (if any) is not |
| Numbers.ConsumeSign | packages/scsv-parser/src/impl.ts:139-143 | Reads the sign and the whitespace after it as `SignAt` says |
| Numbers.ParseFraction | packages/scsv-parser/src/impl.ts:147-148 | Reads `.` and a digit span as `FractionAt` says; without `.`, no digits and no move |
| Numbers.ParseExponent | packages/scsv-parser/src/impl.ts:150-160 | Reads `e`/`E`, a sign and a digit span as `ExponentAt` says; without the mark, no digits and no move |
| Numbers.ParseNumber | packages/scsv-parser/src/impl.ts:138-162 | Returns the parts and ends where `NumberAt` says, without errors |
| Numbers.ValueShape | packages/scsv-parser/src/impl.ts:164-171 | `Value` is the source's two-term sum as written: `mul·accum·10^e + frac·10^(e−fracSize)` with `e = expMul·exp` |
| Numbers.SignedValueShape | packages/scsv-parser/src/impl.ts:164-171 | `SignedValue` is the same sum with `mul` applied to the fraction term as well |
| NumberFacts.NumberDigits | packages/scsv-parser/src/impl.ts:162 | `undefined` exactly when the text stepped over holds no digit; otherwise the three counts add up to the digits stepped over |
| NumberFacts.NumberMoves | packages/scsv-parser/src/impl.ts:138-162 | The cursor moves exactly when the current unit is a digit, sign, `.`, `e` or `E`; without a move the result is `undefined` |
| NumberFacts.NumberOfDigitsAndWhitespace | packages/scsv-parser/test/parseNumber.ts:20-31 | Digits with whitespace between them are read to the end as the integer part alone, worth the digits with the whitespace removed |
| Numerals.NumberOfNumeral | packages/scsv-parser/src/impl.ts:138-162 | A numeral followed by anything not read into it is read to its end, giving exactly its parts, or `undefined` when it has no digit |
| Numerals.SignedValueOfParts | packages/scsv-parser/src/impl.ts:164-171 | With the sign on both terms, the parts are worth exactly what the numeral denotes |
| Numerals.ValueOfParts | packages/scsv-parser/src/impl.ts:164-171 | The formula as written equals the numeral's value exactly when the numeral is not negative or its fraction is zero |
| Numerals.NegativeFractionAsWritten | packages/scsv-parser/src/impl.ts:168-171 | `-1.5` has parts (negative, 1, fraction 5 of 1 digit); as written it is worth -0.5, signed -1.5 |
| Numerals.TwelveThirtyFour | packages/scsv-parser/test/generators/number.ts:69 | `1234` is read to its end as the integer part 1234 of four digits, worth 1234 |
| Numerals.ThreeHundred | packages/scsv-parser/test/generators/number.ts:79 | `3e2` is read to its end as integer part 3 and exponent 2, worth 300 |
| Numerals.FiveThousandths | packages/scsv-parser/test/generators/number.ts:82 | `.5e-2` is read to its end as fraction 5 of one digit and exponent -2, worth 0.005 |
| Nulls.ParseNull | packages/scsv-parser/src/impl.ts:174-180 | Returns and ends as `NullAt` says; errors unchanged |
| Nulls.SpellingsExclusive | packages/scsv-parser/src/impl.ts:176 | No two of `null`, `nil`, `none` occur at the same offset, so the order they are tried in does not matter |
| Nulls.NullReadsSpelling | packages/scsv-parser/src/impl.ts:174-180 | A move steps over exactly one spelling; `null` without a move only at end of input; `undefined` exactly when no spelling occurs and input remains; a first unit other than lower-case `n` gives `undefined` with no move |
| Nulls.NullOfSpelling | packages/scsv-parser/test/parseNull.ts:6-16 | Each spelling, followed by anything, is read as `null` and stepped over entirely |
| Strings.ParseHexDigit | packages/scsv-parser/src/impl.ts:238-249 | One pass of the `\u` loop body on the fork, as `HexStep` says: the value times 16, plus a hex digit that is stepped over, or an error at the fork's position with the escape marked invalid and no move |
| Strings.ParseHexDigits | packages/scsv-parser/src/impl.ts:235-250 | The four-step `\u` loop on the fork computes what `HexLoop` says |
| Strings.ParseUnicodeEscape | packages/scsv-parser/src/impl.ts:231-258 | The `\u` branch gives the code unit, end and errors `UnicodeEscapeAt` says |
| Strings.ParseUnicodeLetter | packages/scsv-parser/src/impl.ts:230-261 | On `u`: steps over it, then gives the text, end and errors `EscapeAt` says for a `\u` escape |
| Strings.ParseEscape | packages/scsv-parser/src/impl.ts:227-272 | The escape branch gives the text, end and errors `EscapeAt` says |
| Strings.ScanUnit | packages/scsv-parser/src/impl.ts:215-284 | One pass of the loop body: it stops on the closing quote and changes nothing, or it is one step of `ScanAt` |
| Strings.ParseString | packages/scsv-parser/src/impl.ts:207-293 | Returns, ends and appends errors as `StringAt` (as written) says |
| Strings.LoopErrorsAppend | packages/scsv-parser/src/impl.ts:215-285 | The loop only appends errors after those already recorded |
| StringFacts.UnquotedPlain | packages/scsv-parser/src/impl.ts:207-292 | Unquoted input without backslashes reads as the rest of the input with leading and trailing whitespace trimmed, ending at end of input, without errors |
| StringFacts.QuotedPlain | packages/scsv-parser/src/impl.ts:207-292 | Quoted input without backslashes reads as exactly the text up to the next `"`, whose closing quote is stepped over if present |
| StringFacts.HexLoopStuck | packages/scsv-parser/src/impl.ts:240-247 | Once the fork stands on a non-hex unit it never moves, and each remaining step records the same error |
| StringFacts.UnicodeEscapeOutcome | packages/scsv-parser/src/impl.ts:230-258 | A `\u` escape steps over its leading hex digits and no further; it gives a unit and no error exactly when there are four; otherwise the ignored-escape error quoting them comes first, then the invalid-digit error once per remaining step |
| StringFacts.FourHexDigits | packages/scsv-parser/src/impl.ts:237-252 | Four hex digits give the unit `d0·16³ + d1·16² + d2·16 + d3` |
| StringFacts.LetterOutcome | packages/scsv-parser/src/impl.ts:263-271 | An escape letter outside the table appends nothing and records one error; a letter in the table appends its unit and records nothing; the cursor moves past the letter only |
| StringFacts.UnicodeLetterOutcome | packages/scsv-parser/src/impl.ts:230-258 | A `\u` without four hex digits appends nothing and moves past the `u` and the hex digits present only |
| StringCodec.HexTextRoundTrip | packages/scsv-parser/src/impl.ts:237-252 | The four lower-case hex digits of a unit read back as that unit, with no error |
| StringCodec.EscapedRun | packages/scsv-parser/src/impl.ts:215-285 | Reading back `Escape(t)` and the closing quote from a state not in escape mode stops on that quote, records nothing, and appends exactly `t` |
| StringCodec.RoundTrip | packages/scsv-parser/test/generators/string.ts:34-55 | With held-back whitespace written out before escapes, the lexer inverts `JSON.stringify` on every string, whatever follows, and stops after the closing quote |
| StringCodec.RoundTripAsWritten | packages/scsv-parser/test/generators/string.ts:34-55 | As written, the same holds for every string with no space just before an escaped unit |
| StringCodec.SpaceBeforeEscapeAsWritten | packages/scsv-parser/src/impl.ts:271-279 | As written, `JSON.stringify` of `a`, space, `\n` reads back as `a`, `\n`, space |
| Text.DecimalTextRoundTrip | packages/scsv-parser/test/parseDigitSpan.ts:5-7 | The decimal text of a natural number is all digits and its decimal value is that number |
| Text.TrimStartShape | packages/scsv-parser/src/impl.ts:209 | Trimming the start drops a prefix made only of whitespace and keeps the rest, which does not start with whitespace |
| Text.TrimEndShape | packages/scsv-parser/src/impl.ts:276-282 | Trimming the end drops a suffix made only of whitespace and keeps the rest, which does not end with whitespace |
| Text.StripWhitespaceAppend | packages/scsv-parser/test/parseDigitSpan.ts:9-20 | Removing whitespace distributes over concatenation |

## Left out

- Floating point: the number is exact parts plus an exact `real`. `Math.pow` and the conversion to a double are left out, and so is the precision lost once the integer part passes 2^53. The "from double" test in `test/parseNumber.ts:5-18` depends on that conversion.
- The `ignoreCase` path of `consume` and `consumeString` is left out. It depends on locale-dependent `toLocaleLowerCase`, and no lexer passes it.
- Error-message text is left out. An error is its position plus the payload the message quotes: the hex unit found, the digits of a `\u` escape, or the unit shown after an unknown escape.
- `toString` of `Pos`, `SCSVError` and `Ctx` is left out, because it is formatting only.
- `Pos.clone`, `Pos.equals` and `posClone` need no member, because `Pos` is a value. This also means the model does not capture the `Pos` object that `advanceTo` shares between a parent and its fork.
- `consumeString` iterates code points with `for..of`, but the model iterates code units. The two agree for the ASCII words the lexers pass.
- `JSON.stringify` escaping of lone surrogates is left out. `StringCodec.Escape` writes only `"`, `\` and units below 0x20 as escapes.
- `Cursor.Ctx.Next` requires that the cursor is not at end of input. Every caller checks this first, and without the guard the offset would run past the input.
- The split of the `parseNumber` and `parseString` bodies into helper methods (`ConsumeSign`, `ParseEscape`, `ScanUnit` and others) is a layout choice. Each helper is one section of the original body.
- `parseBoolean`, `parseValue`, `unionVariantComparator`, `scsv.parse` and `isOptional` are not part of this model. Neither are delimiter and nesting context, `types.ts` (type declarations only) or `index.ts` (re-exports only).
- The code is followed where tests disagree with it:
  - `test/generators/null.ts:7-17,24` expects mixed-case spellings such as `NoNe` to read as null, but `parseNull` matches case-sensitively (`impl.ts:177`). `Nulls.NullReadsSpelling` states the case-sensitive behaviour.
  - `test/generators/number.ts:71,75,76,80,81` expect `- 1 234 567.999 999 e+10` to give -1234567.999999e10, `e1` to give 10, `-.5` to give -0.5, and similar results. The code never applies the sign to the fraction and reads a missing integer part as 0, so the first gives -1234567e10 + 999999e4.
  - `test/parseNumber.ts:33-49` expects no move and `undefined` for any first unit other than a digit, `-`, `+` or `.`. The code also steps over a leading `e` or `E` (`impl.ts:152-153`); `NumberFacts.NumberMoves` states the code's rule.
  - `test/generators/string.ts:96` expects the unquoted input `a \u003A` to read as `a :`. The code gives `a:`; see Findings.
- A failed `parseNumber` after a consumed sign or `e` does not restore the position. The model keeps this: `NumberAt` ends after whatever was stepped over.

## Findings

| source | as written | input that shows it | evidently intended | confidence | as-written member | corrected member |
|---|---|---|---|---|---|---|
| packages/scsv-parser/src/impl.ts:168-171 | `mul` multiplies only the integer term, so a negative number's fraction is added | `-1.5` gives -0.5 | the sign applies to the fraction too, giving -1.5 (as `test/generators/number.ts:80` expects for `-.5`) | not executed | Numerals.NegativeFractionAsWritten | Numerals.SignedValueOfParts |
| packages/scsv-parser/src/impl.ts:252-279 | an escape's unit is appended to `res` while held-back whitespace stays held back | `JSON.stringify` of `a`, space, `\n` reads back as `a`, `\n`, space | held-back whitespace is written out before an escape's unit, as before any other unit (as `test/generators/string.ts:96` expects) | not executed | StringCodec.SpaceBeforeEscapeAsWritten | StringCodec.RoundTrip |
