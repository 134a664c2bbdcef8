# Query-language lexer and Expected container, in Dafny

This project models the front end of the kvstore query language: a
single-pass, fail-fast lexer that turns source text into `and`, `or`,
`true`, `false`, parenthesis, number and identifier tokens with their source
ranges, or stops at the first unknown character with an `UnknownToken`
error. It also models the `Expected<T, E>` success-or-error container that
the lexer returns, and the token/position/error types it uses.

Files and modules:

- `expected.dfy`, module `Expectation`: `Unexpected<E>` and
  `Expected<T, E>` (a two-arm datatype `Expect | Unexpect`), with
  `HasValue`, `HasError`, the partial accessors `Value` and `Error`,
  `ValueOr`, `Transform`, and the two tag constructors `FromValue` and
  `FromError`.
- `parse_common.dfy`, module `ParseCommon`: `TokenType`, `SourcePosition`,
  `SourceRange`, `Token`, `ParseErrorType`, `ParseError`, and
  `TokenTypeRepr`. A token's `string_view` literal is a `StringView(offset,
  length)` into the source it was read from.
- `decimal.dfy`, module `Decimal`: how `std::format` spells the line and the
  column in the error message, with a read-back function.
- `lexer_spec.dfy`, module `LexerSpec`: the scan as functions of the source
  and a `Cursor` (index, position, last consumed character). It has the
  character classes, one `advance` (`Step`), the run loops (`ScanWhile`),
  `parse_number` (`NumberScan`), `parse_keyword_or_identifier`
  (`WordScan`), `new_invalid_error` (`InvalidError`), `parse_other`
  (`ScanOther`) and `lex` (`LexFrom`, `Lex`). It also holds two independent
  accounts to prove them against. `PositionAt` gives the reported position
  in terms of newline counts. `WellLexed` says what a correct token
  sequence for a source is, without saying how to compute it.
- `lexer_properties.dfy`, module `LexerProperties`: the theorems.
  `Lex(s) == Expect(ts)` holds exactly when `WellLexed(s, ts)`, and that
  decomposition is unique. The pass fails exactly when some character is
  not a lexeme character, and then with the error of the first such
  character. Tokens come in strictly increasing, non-overlapping order.
  Re-lexing a token's text alone gives the same kind.
- `lexer.dfy`, module `Lexing`: the `Lexer` class with fields `source`
  (const), `currentIdx`, `currentPosition` and `lastValue`. Each method
  (`Advance`, `ParseNumber`, `ParseKeywordOrIdentifier`, `ParseOther`,
  `Lex`) is proved to leave the cursor and return exactly what its
  `LexerSpec` counterpart says. Its loops carry invariants. `LexSource`
  constructs a lexer and lexes, as the demo driver does.
- `lexer_examples.dfy`, module `LexerExamples`: concrete sources.

`main.cpp` carries copies, with the same behaviour, of the lexer (lines
92-274, with the members defined inside the class and the classifiers as
static members), of `token_type_repr` (lines 25-46) and of the data types
(lines 12-90). The one model above serves both copies, and some rows below cite the `main.cpp` copy.

Two behaviours of the code are easy to misread. The model follows the code:

- The range of a number or identifier run ends at the position AFTER its
  last character, so `"123"` is `[1:1]-[1:4]`, not `[1:1]-[1:3]`.
- `advance` tests the character consumed by the previous call before it
  records the new one. So the line bump for a newline happens one character
  late. In `"true\nfalse"` the token `false` is `[1:6]-[2:5]`, not one that
  starts at `[2:1]`.

## Model

| member | source | states |
|---|---|---|
| `Expectation.Unexpected.Error` | expected.h:29-32 | returns the wrapped error: wrapping the result again gives back the same Unexpected |
| `Expectation.Unexpected.Swap` | expected.h:34-38 | afterwards each wrapper holds the other's former error |
| `Expectation.SwapTwice` | expected.h:34-38 | swapping twice restores both wrappers |
| `Expectation.Expected.HasValue` | expected.h:73-75 | the value arm is held; it has no contract of its own, and `Expected.HasError` states that exactly one arm is held |
| `Expectation.Expected.HasError` | expected.h:77-79 | exactly one arm is held: has_error is the negation of has_value |
| `Expectation.Expected.Value` | expected.h:81-95 | defined only on the value arm (precondition), and returns the value that arm stores |
| `Expectation.Expected.Error` | expected.h:97-111 | defined only on the error arm (precondition), and returns the error stored in its Unexpected |
| `Expectation.Expected.ValueOr` | expected.h:113-129 | the held value when there is one, the default otherwise |
| `Expectation.Expected.Transform` | expected.h:131-173 | keeps the arm; on a value it holds fn(value); on an error it holds the same error, and fn is applied to nothing |
| `Expectation.FromValue` | expected.h:63-66 | the ExpectTag constructor gives has_value, and value() returns the stored value |
| `Expectation.FromError` | expected.h:68-71 | the UnexpectTag constructor gives has_error, and error() returns the stored error |
| `Expectation.TransformIdentity` | expected.h:131-140 | transforming by the identity changes nothing |
| `Expectation.TransformCompose` | expected.h:131-140 | two transforms in a row equal one transform by the composition |
| `ParseCommon.TokenTypeRepr` | parse_common.cpp:5-26 | total on the eight kinds; the "unknown" default is never returned |
| `ParseCommon.TokenTypeReprInjective` | main.cpp:25-46 | distinct kinds get distinct names |
| `ParseCommon.StringView.Of` | parse_common.h:35-39 | a token literal stands for exactly `length` characters of the source, from `offset` on |
| `Decimal.NatToString` | lexer.cpp:88-90 | the `{}` spelling of a line or column: at least one decimal digit, no leading zero |
| `Decimal.ParseNatToString` | lexer.cpp:88-90 | reading the spelling back gives the number |
| `LexerSpec.IsNumChar` | lexer.cpp:13-15 | a decimal digit `0`-`9` (`Decimal.IsDigit`); a definition, whose relation to the other classes is `ClassesDisjoint` |
| `LexerSpec.IsAsciiLetter` | lexer.cpp:17-19 | the ASCII letters `A`-`Z` and `a`-`z`, standing for `std::isalpha` in the C locale; a definition |
| `LexerSpec.IsKeywordChar` | lexer.cpp:17-19 | `_`, `-` or a letter: a character that starts an identifier or keyword; a definition, disjoint from the digits by `ClassesDisjoint` |
| `LexerSpec.IsNumKwChar` | lexer.cpp:21-23 | a digit or a keyword-start character: a character that continues an identifier; a definition, disjoint from whitespace and parentheses by `ClassesDisjoint` |
| `LexerSpec.IsSkipped` | lexer.cpp:37-42 | exactly space, tab, carriage return and newline, which the pass steps over; its meaning in the pass is `LexWhitespaceOnly` and `WellLexed` |
| `LexerSpec.ClassesDisjoint` | lexer.cpp:13-23 | digits and keyword-start characters are disjoint; no run character is whitespace or a parenthesis; the end sentinel is in no class |
| `LexerSpec.KeywordKind` | lexer.cpp:120-133 | a keyword kind exactly when the run is `and`, `or`, `true` or `false` (case-sensitive), with that kind's name equal to the run; Identifier otherwise |
| `LexerSpec.KeywordReprRoundTrip` | parse_common.cpp:7-14 | the name of each keyword kind is the text that lexes to that kind |
| `LexerSpec.Step` | lexer.cpp:162-178 | a no-op at the end; otherwise the index grows by one and the last character becomes the consumed one; the line never decreases; the column stays at least 1; the line grows exactly when the previously consumed character was a newline |
| `LexerSpec.CursorAt` | lexer.h:16-20 | after i steps from the fresh state {0, [1:1], NUL}, the index is i and the last character is s[i-1] |
| `LexerSpec.CursorAtPosition` | main.cpp:252-268 | the position after i steps equals PositionAt: line = 1 + newlines in s[..i-1], column counted from the last of them |
| `LexerSpec.ScanWhile` | lexer.cpp:98-100 | the run loop stays in bounds, consumes only accepted characters, and stops at the end or at a rejected character (a maximal run) |
| `LexerSpec.NumberScan` | lexer.cpp:95-109 | `parse_number` as a function: the digit run from the cursor and its Number token; its meaning is `NumberScanRun` |
| `LexerSpec.NumberScanRun` | lexer.cpp:95-109 | the cursor ends after the maximal digit run from the start; the token is a Number whose view is that run and whose range runs from the start position to the end cursor's position |
| `LexerSpec.WordScan` | lexer.cpp:111-142 | `parse_keyword_or_identifier` as a function: the identifier run from the cursor and its token; its meaning is `WordScanRun` |
| `LexerSpec.WordScanRun` | lexer.cpp:111-142 | the cursor ends after the maximal run of digits, letters, `_` and `-`; the token's view is that run, its kind is KeywordKind of the run's text, and its range runs from the start position to the end cursor's position |
| `LexerSpec.ParenToken` | lexer.cpp:31-34 | the token built for a parenthesis: one character at the cursor with range {pos, pos}; its meaning is `ParenIsLexeme` |
| `LexerSpec.UnknownLiteralCause` | lexer.cpp:88-90 | the text "unknown literal `raw` [line:column]" with the decimal spellings of `Decimal.NatToString`; checked on a concrete input by `UnknownCharacter` |
| `LexerSpec.InvalidError` | lexer.cpp:78-93 | an UnknownToken error at range {pos, pos} of the cursor |
| `LexerSpec.ScanOther` | lexer.cpp:67-76 | yields a token exactly when the current character is a digit, letter, `_` or `-`; the token consumed at least one character; otherwise it yields the invalid error at the cursor |
| `LexerSpec.LexFrom` | lexer.cpp:29-62 | the pass as recursion on the index: skip whitespace, a token per parenthesis, ScanOther otherwise, and the first error ends the pass with no tokens; its meaning is `LexFromWellLexed`, `LexFromSucceeds` and `LexFromFailsAt` |
| `LexerSpec.Lex` | main.cpp:102-142 | the pass from the fresh cursor {0, [1:1], NUL}; its meaning is `LexSpecified`, `LexFailsIff` and `LexErrorAtFirstUnknown` |
| `LexerSpec.FirstUnknownFrom` | lexer.cpp:53-57 | the index at which a pass entered at `i` stops, between `i` and the length of the source; its meaning is `FirstUnknownFromSpec` |
| `LexerProperties.FirstUnknownFromSpec` | lexer.cpp:53-57 | every character from `i` up to that index is a lexeme character, and the character there, if any, is not one |
| `LexerProperties.LexemeStart` | main.cpp:157-166 | the first character of a lexeme fixes its kind: `(`, `)`, a digit (Number), or otherwise a keyword or identifier; never whitespace |
| `LexerProperties.LexemeUnique` | lexer.cpp:95-142 | two lexemes at the same offset are the same token |
| `LexerProperties.WellLexedUnique` | lexer.cpp:29-62 | a source has at most one WellLexed token sequence |
| `LexerProperties.WellLexedOrdered` | lexer.cpp:29-62 | in that sequence every token is a lexeme, and tokens are strictly increasing and non-overlapping |
| `LexerProperties.ParenIsLexeme` | lexer.cpp:43-52 | a parenthesis gives a one-character token with range {pos, pos} |
| `LexerProperties.RunIsLexeme` | lexer.cpp:95-142 | a run token's view starts at the cursor's index and ends at the returned cursor's index; the run is maximal; its range runs from the start position to the position after the run |
| `LexerProperties.LexFromWellLexed` | lexer.cpp:25-65 | a successful pass from a reachable cursor yields the WellLexed decomposition of the rest of the source |
| `LexerProperties.LexFromSucceeds` | lexer.cpp:29-64 | a pass over lexeme characters only never fails |
| `LexerProperties.LexFromFailsAt` | lexer.cpp:53-57 | a pass meeting its first unknown character fails with that character's error alone |
| `LexerProperties.LexSpecified` | main.cpp:102-142 | lex(s) succeeds with ts exactly when ts is the WellLexed decomposition of s |
| `LexerProperties.LexFailsIff` | lexer.cpp:53-60 | lex(s) fails exactly when s has a character that is not whitespace, a parenthesis, a letter, a digit, `_` or `-` |
| `LexerProperties.LexErrorAtFirstUnknown` | main.cpp:168-183 | the error is that of the first unknown character: UnknownToken, range {p, p} at its position, cause "unknown literal `c` [line:column]"; earlier tokens are discarded |
| `LexerProperties.LexWhitespaceOnly` | lexer.cpp:37-42 | empty and whitespace-only sources give success with no tokens |
| `LexerProperties.LexTokensOrdered` | lexer.cpp:32-33 | on success every token is a lexeme of s, and tokens appear in strictly increasing, non-overlapping index order |
| `LexerProperties.RelexLexeme` | lexer.cpp:111-142 | lexing a token's text alone gives one token of the same kind spanning that text |
| `Lexing.Lexer.constructor` | lexer.h:16-20 | a fresh lexer has index 0, position [1:1] and last character NUL, and its source is the given one |
| `Lexing.Lexer.GetCurrent` | lexer.cpp:148-153 | the character at the cursor, or a sentinel that no character class accepts |
| `Lexing.Lexer.Advance` | lexer.cpp:162-178 | the new cursor is Step of the old one; returns NUL at the end, else the consumed character |
| `Lexing.Lexer.ParseNumber` | lexer.cpp:95-109 | returns NumberScan's token and leaves the cursor after the digit run |
| `Lexing.Lexer.ParseKeywordOrIdentifier` | main.cpp:201-232 | returns WordScan's token and leaves the cursor after the run |
| `Lexing.Lexer.ParseOther` | main.cpp:157-166 | does what ScanOther says; on error the cursor is unchanged and its character is no digit, letter, `_` or `-`; a token advances the cursor over lexeme characters only, so where the pass will stop does not move |
| `Lexing.Lexer.Lex` | lexer.cpp:25-65 | returns LexFrom of the source from the entry cursor; the lexer stays valid, at the end of the source after success and, after an error, at the first character from the entry index on that is not a lexeme character (`FirstUnknownFrom`); every character passed over is a lexeme character |
| `Lexing.LexSource` | main.cpp:279-280 | a fresh lexer's pass equals Lex(source); it succeeds exactly when every character is a lexeme character, and then returns the WellLexed decomposition |
| `LexerExamples.NumberRangeEndsAfterRun` | lexer.cpp:106 | "123" is one Number token at [1:1]-[1:4] |
| `LexerExamples.NewlineBumpLags` | lexer.cpp:171-176 | "true\nfalse" is True at [1:1]-[1:5] and False at [1:6]-[2:5] |
| `LexerExamples.UnknownCharacter` | lexer.cpp:84-91 | "@" fails with UnknownToken at [1:1]-[1:1] and cause "unknown literal `@` [1:1]" |
| `LexerExamples.ErrorDiscardsTokens` | lexer.cpp:55-57 | "a @" fails with the error of `@` at [1:3]; the earlier identifier is dropped |
| `LexerExamples.UpperCaseIsIdentifier` | lexer.cpp:122-133 | "AND" is one Identifier token |
| `LexerExamples.DigitsThenWord` | lexer.cpp:95-100 | "123abc" is Number "123" then Identifier "abc" |
| `LexerExamples.Parentheses` | main.cpp:120-129 | "(()" is three one-character paren tokens at {pos, pos}; their balance is not checked |

## Left out

- The demo driver `main()` (main.cpp:276-290) and every `operator<<` printer (parse_common.cpp:28-43, main.cpp:53-79). They are console output. `LexSource` models only the construct-and-lex step of the driver.
- `get_peek` (lexer.cpp:155-160, main.cpp:245-250), because nothing calls it.
- `std::isalpha`'s locale dependence, and its undefined behaviour on negative `char`. No character outside `A-Z`/`a-z` counts as a letter, so a non-ASCII character takes the UnknownToken path.
- C++ mechanics of `expected.h`: the ref-qualified and move overloads, the `requires`/concept constraints, the private default constructor, and the copy constructor, which is value semantics in Dafny. The `transform` overload at expected.h:166 duplicates the one at 155. The declared return types of `transform`, which are ill-formed for type-changing functions, are replaced by `Transform<U>(fn): Expected<U, E>`.
- Expectation.Unexpected.Swap: it returns the exchanged pair as a new value. It does not swap two objects in place, so aliasing between the two wrappers is not modelled.
- Characters versus bytes: a Dafny `string` holds Unicode characters while `std::string` holds bytes. For a non-ASCII character the model's error cause quotes the whole character where the source quotes a single byte (and `std::isalpha` is undefined for such bytes there).
- `std::get` on the wrong alternative throws `std::bad_variant_access` (expected.h:82, 98). `Expectation.Expected.Value` and `Expectation.Expected.Error` instead require the right arm. The lexer never takes the throwing path, because it tests `has_error()` before it reads either arm (lexer.cpp:55-58).
- The lifetime and borrowing of `string_view`: a literal is an offset and a length into an immutable `string`.
- `size_t`/`ssize_t` overflow of the index, the line and the column: these are unbounded naturals.
- The optional `o_rs`/`o_raw` arguments of `new_invalid_error`, which no caller supplies. Only the default path is modelled.
- The `Eof` error kind. It is declared in `ParseErrorType`, but nothing produces it.
- `is_at_end` (`Lexing.Lexer.IsAtEnd`) and `new_invalid_error` (`Lexing.Lexer.NewInvalidError`) are plain read-only functions of the class, with no contract of their own. Their meaning is stated by `GetCurrent`, `InvalidError` and `ScanOther`.
