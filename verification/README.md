# loxr scanner, modelled in Dafny

This project models the lexical scanner of loxr, a Lox interpreter written in
Rust, together with the error sink the scanner reports to.

`Scanner::scan_tokens` makes one left-to-right pass over the source text.
It keeps a cursor (`start` of the token being scanned and `current`, the next
unread offset), a line counter and a growing token list. Each step consumes
one character and dispatches on it:

- fixed punctuation;
- the operators `! > < =`, which may be followed by `=`;
- `/` versus `//` line comments versus slash-star block comments;
- layout characters;
- string literals;
- number literals;
- identifiers and keywords.

Malformed input is reported through `Loxr::error`, which sets the sticky
`had_error` flag, and scanning goes on. After the loop a single `EOF` token
is appended.

Files:

- `wrappers.dfy`: `Option`.
- `error_sink.dfy` (module `ErrorSink`): `Loxr`, with `New`, `Report` and
  `Error`. A report appends a `Diagnostic(line, pos, message)` record to
  `reported` instead of printing it.
- `tokens.dfy` (module `Tokens`): `TokenType`, the keyword table of
  `keywords`, the spelling table of the punctuation and operators, `Token`,
  and the character classes.
- `scanner.dfy` (module `Lexer`): the scanner state, one step (`ScanToken`),
  the sub-scanners (`MatchNextAddToken`, `SlashOrComment`, `BlockComment`,
  `StringLiteral`, `NumberLiteral`, `IdentifierOrKeyword`), the loop (`Run`,
  `Scan`, and the imperative `ScanTokens`), and the loop invariant
  (`Running`). Every step is proved to keep that invariant.
- `properties.dfy` (module `ScannerProperties`): what each kind of step does.
  It also holds whole-scan properties, including an independent
  longest-match reading of punctuation text.
- `scanner_tests.dfy` (module `ScannerTests`): the two unit tests of
  `lexer.rs`, stated as lemmas.

Modelling choices:

- The source is a `seq<char>`. A token's lexeme is the pair of offsets
  `[lo, hi)` into it.
- A NUMBER literal is its digit text (`Num(text)`). A STRING literal is the
  text strictly between the quotes (`Str(text)`).
- `Scan` requires ASCII input (`AsciiText`). The original compares the
  cursor with the byte length `source.len()` but indexes a `Vec<char>`.
  For ASCII text the two lengths agree. For ASCII text, Rust's `is_numeric`
  and `is_alphanumeric` are also the ASCII digit and letter-or-digit tests.
- The original has two reads that are not bounds-checked. Each can be
  reached with the cursor at the end of the input, and each becomes an
  explicit `Outcome.Panic(state, index)` here:
  - a trailing `/` reads `source_as_vec[current]`
    (src/lexer/lexer.rs:143);
  - an unterminated block comment reports "No ending to block comment"
    without leaving its loop, then `advance` reads past the end
    (src/lexer/lexer.rs:150-161, 264-268).

The model follows the code as written, including these behaviours:

- **Alphanumeric fall-through.** A letter or digit is scanned as an
  identifier, keyword or number, and the same step *also* reports "Invalid
  token" (src/lexer/lexer.rs:177-184). So any identifier, keyword or number
  sets `had_error`.
- **No `-` case.** `-` falls into the error arm (src/lexer/lexer.rs:177-184):
  it gives no token and an "Invalid token" report. `MINUS` is never produced.
- **Block comments do not count lines.** Newlines inside a block comment do
  not advance `line` (src/lexer/lexer.rs:148-162), unlike newlines inside
  strings (src/lexer/lexer.rs:243-248).
- **Unterminated block comments panic.** At the end of the input the block
  comment loop reports "No ending to block comment" and does not leave the
  loop; its next `advance` reads past the end (src/lexer/lexer.rs:150-161,
  264-268).
- **The EOF lexeme is not empty.** `add_token` takes `source[start..current]`
  (src/lexer/lexer.rs:277-285), and after the loop `start` is still the start
  of the last step (src/lexer/lexer.rs:116-120). The lexeme is empty only
  for empty input (`EofLexemeEmptyIffEmptyInput`).

## Model

| member | source | states |
|---|---|---|
| ErrorSink.New | src/lib.rs:12-16 | A fresh sink has `had_error` false and nothing reported. |
| ErrorSink.Report | src/lib.rs:25-28 | Sets `had_error` whatever its previous value. Appends exactly one diagnostic `(line, pos, message)` and keeps every earlier one. The flag stays equivalent to "something was reported". |
| ErrorSink.Error | src/lib.rs:21-23 | `error(line, msg)` is exactly `report(line, "", msg)`: the flag is set and one diagnostic with an empty position label is appended. |
| ErrorSink.ExtendsTransitive | src/lib.rs:5-28 | "Reached by reporting" is transitive, so the flag is never cleared across any chain of reports. |
| ErrorSink.ErrorIdempotentOnFlag | src/lib.rs:25-28 | A second error leaves `had_error` as the first one left it. |
| Tokens.Keyword | src/lexer/lexer.rs:55-75 | `keywords` returns only keyword kinds; `KeywordTableRoundTrip` shows it returns one exactly for the 16 reserved words, each its own spelling. |
| Tokens.WordKind | src/lexer/lexer.rs:193 | A word scans to `IDENTIFIER` or to a keyword kind, never to anything else. |
| Tokens.KeywordTableRoundTrip | src/lexer/lexer.rs:55-75 | `keywords(w)` is `Some(k)` iff `k` is a keyword kind spelled `w`. The lookup succeeds iff `w` is one of the 16 reserved words. |
| Tokens.KeywordTextRecognised | src/lexer/lexer.rs:55-75 | Every keyword kind is found by looking up its own spelling. |
| Tokens.PunctuatorTableRoundTrip | src/lexer/lexer.rs:126-140 | The spelling of each punctuation kind and the lookup from spelling to kind are inverse. Every two-character spelling is one of `! < > =` followed by `=`. |
| Lexer.IsAtEnd | src/lexer/lexer.rs:287-289 | The cursor is at the end exactly when it no longer indexes a character of the source, so reads it guards are in bounds. |
| Lexer.Peek | src/lexer/lexer.rs:270-275 | The character under the cursor while one is left; NUL at or past the end. |
| Lexer.PeekNext | src/lexer/lexer.rs:234-240 | The character one past the cursor, NUL when there is none: the same answer `peek` gives one position further on. |
| Lexer.AddToken | src/lexer/lexer.rs:277-285 | Appends exactly one token, with lexeme `[start, current)`, the given kind and literal, on the current line. Earlier tokens and every other field are unchanged. |
| Lexer.SkipWhile | src/lexer/lexer.rs:189-191 | The scan loops stop at the end of the maximal run of characters that satisfy the loop's test. |
| Lexer.MatchNextAddToken | src/lexer/lexer.rs:220-232 | Takes the two-character kind and consumes `expected` iff the next character exists and equals it. Otherwise takes the one-character kind and consumes nothing. Exactly one token is added, with lexeme `[start, current)`. |
| Lexer.BlockComment | src/lexer/lexer.rs:148-162 | Ends normally iff a star-slash lies ahead. It then stops just after the first one, with line, tokens and sink unchanged. Otherwise it reports "No ending to block comment" once and panics at the end of the input. |
| Lexer.SlashOrComment | src/lexer/lexer.rs:142-167 | A trailing `/` panics. `//` runs to the next newline or the end, with no token. Slash-star hands over to the block comment. Any other following character gives one SLASH token. |
| Lexer.StringBody | src/lexer/lexer.rs:243-248 | Stops at the first quote or at the end, having passed no quote. Adds one line per newline passed. |
| Lexer.StringLiteral | src/lexer/lexer.rs:242-262 | A token is added iff a closing quote lies ahead. That token is one STRING whose literal is exactly the text between the quotes, and newlines inside count as lines. Without a closing quote it reports "Unterminated string" at the end and adds no token. |
| Lexer.NumberIsMaximalMunch | src/lexer/lexer.rs:196-207 | Suppose number text is followed by a non-digit. Suppose also that, when it is followed by `.` and a digit, it already holds a `.`. Then no longer prefix from the same start is number text. |
| Lexer.NumberLiteral | src/lexer/lexer.rs:196-218 | Consumes number text: digits, then `.` and more digits only when the `.` is followed by a digit. The stop is maximal: no longer prefix is number text and no digit follows. Exactly one NUMBER token is added, its literal the consumed text. |
| Lexer.IdentifierOrKeyword | src/lexer/lexer.rs:188-194 | Consumes the maximal alphanumeric run and adds one token. Its kind is `IDENTIFIER` iff the run is not a reserved word, and otherwise the keyword spelled by the run. |
| Lexer.ScanToken | src/lexer/lexer.rs:124-186 | Each step consumes at least one character, keeps `current` within the source and leaves `start` alone. A panic is always an index one past the last character. |
| Lexer.ScanTokenEffect | src/lexer/lexer.rs:124-186 | Each step adds at most one well-shaped token spanning exactly the consumed input, never MINUS or EOF. A word token comes with `had_error` set. The sink is only added to. |
| Lexer.StepPreservesRunning | src/lexer/lexer.rs:116-119 | One pass of the loop body keeps the loop invariant: cursor in bounds, tokens well shaped, ordered and inside the consumed input, line numbers non-decreasing. |
| Lexer.Init | src/lexer/lexer.rs:103-113 | `Scanner::new` starts at offset 0, line 1, with no tokens, in a state satisfying the loop invariant. |
| Lexer.Run | src/lexer/lexer.rs:115-122 | Unless it panics, the loop ends at the end of the input with EOF last. The EOF lexeme is `[start of the last step, end)`. |
| Lexer.RunKeepsInvariant | src/lexer/lexer.rs:115-122 | From a running state the loop finishes with the invariant intact, or panics in a running state. It only appends tokens and only adds to the sink. |
| Lexer.RunStep | src/lexer/lexer.rs:116-119 | A step that does not panic hands the loop on to the next state. |
| Lexer.FinishedTokens | src/lexer/lexer.rs:115-122 | A finished scan has exactly one EOF token, the last. Every token is well shaped and none is MINUS. |
| Lexer.Scan | src/lexer/lexer.rs:115-122 | `new` then `scan_tokens`: unless it panics, exactly one trailing EOF and every token well shaped. The sink is only added to. |
| Lexer.ScanTokens | src/lexer/lexer.rs:115-122 | The while loop of `scan_tokens` computes exactly `Scan`. |
| ScannerProperties.SingleCharacterStep | src/lexer/lexer.rs:127-135 | Each of `( ) { } , . + ; *` appends one token of its own kind whose lexeme is that character, after the earlier tokens. Nothing else changes. |
| ScannerProperties.MinusIsInvalid | src/lexer/lexer.rs:177-184 | `-` gives no token and one "Invalid token" report. |
| ScannerProperties.EqualSuffixStep | src/lexer/lexer.rs:137-140 | Each of `! > < =` gives the two-character kind and consumes the `=` iff the next character exists and is `=`. Otherwise it gives the one-character kind. The token is appended after the earlier ones, and only the cursor and the token list change. |
| ScannerProperties.LineCommentStep | src/lexer/lexer.rs:142-147 | `//` consumes up to but not including the next newline, or to the end, and gives no token. |
| ScannerProperties.SlashStep | src/lexer/lexer.rs:164-166 | `/` followed by anything but `/` or `*` gives one SLASH token. |
| ScannerProperties.TrailingSlashPanics | src/lexer/lexer.rs:142-143 | A `/` as the last character panics reading one past the end, having reported nothing. |
| ScannerProperties.BlockCommentStep | src/lexer/lexer.rs:148-162 | A closed block comment ends after the first star-slash, gives no token and leaves the line counter unchanged, even across newlines. |
| ScannerProperties.UnterminatedBlockCommentPanics | src/lexer/lexer.rs:150-161 | An unclosed block comment reports "No ending to block comment" once, then panics one past the end. |
| ScannerProperties.LayoutStep | src/lexer/lexer.rs:169-173 | A newline adds one to the line counter. Space, `\r` and `\t` change nothing but the cursor. None gives a token. |
| ScannerProperties.AlphanumericStep | src/lexer/lexer.rs:177-184 | A letter or digit gives a word or NUMBER token and also reports "Invalid token" at the current line. |
| ScannerProperties.UnknownCharacterStep | src/lexer/lexer.rs:177-184 | Any other ASCII character gives no token and one "Invalid token" report. |
| ScannerProperties.PanicOnlyAtSlash | src/lexer/lexer.rs:124-186 | On ASCII text a step can only panic on a `/`. |
| ScannerProperties.ScanEmpty | src/lexer/lexer.rs:115-122 | Empty input gives exactly `[EOF]`, with an empty lexeme on line 1, and reports nothing. |
| ScannerProperties.PunctuationStep | src/lexer/lexer.rs:126-140 | On punctuation text one step takes exactly the token that a longest-match reading of the spelling table takes first. |
| ScannerProperties.PunctuationRun | src/lexer/lexer.rs:115-122 | On punctuation text the loop never panics, reports nothing and stays on one line. Its token kinds are the longest-match reading followed by EOF. |
| ScannerProperties.PunctuationScan | src/lexer/lexer.rs:115-140 | The same for a whole scan from `new`. |
| ScannerProperties.WordTokenMeansError | src/lexer/lexer.rs:177-184 | A finished scan that contains any identifier, keyword or number token has `had_error` set. |
| ScannerProperties.NoSlashNeverPanics | src/lexer/lexer.rs:142-162 | ASCII input with no `/` never makes the scan panic. |
| ScannerProperties.RunExtendsSink | src/lexer/lexer.rs:115-122 | From any state, the loop only adds to the sink, so `had_error` once set stays set. |
| ScannerProperties.EofLexemeOfLastStep | src/lexer/lexer.rs:115-122 | When input remains, the EOF lexeme runs from a step's start, at or after the cursor, to the end of the input. So it is never empty. |
| ScannerProperties.EofLexemeEmptyIffEmptyInput | src/lexer/lexer.rs:115-122 | On a finished scan the EOF lexeme is empty iff the input is. |
| ScannerTests.TestSingleCharacterTokens | src/lexer/lexer.rs:304-340 | `{}.()**}}!===!>=><=>` with a fresh sink gives its 16 kinds, then EOF, with `had_error` false. |
| ScannerTests.TestShouldReturnErr | src/lexer/lexer.rs:342-348 | `{}dfg{}` with a fresh sink finishes with `had_error` set. |

## Left out

- `src/main.rs` is not part of this model: argument handling, file reading and token printing.
- `run_file`, `run_prompt` and `run` (src/lib.rs:17-19) are empty stubs.
- The console output of `report` and the debug prints in `number` are not modelled. A report is recorded as a `Diagnostic` instead of being printed.
- Lexer.NumberLiteral: does not model parsing the text as an `f32`, the `0.1` fallback, or the "Cannot parse numeric literal" report. The parse is a floating-point library call. The literal is kept as the consumed digit text.
- The `Literal::NONE` variant is never produced by the scanner and is not modelled.
- Lexer.ScanToken: models a step of the original only on ASCII text. On other text the original compares `current` with the byte length but reads a `Vec<char>`, slices lexemes by byte offset, and treats non-ASCII letters as identifier characters, so it panics on any non-ASCII input; the model instead steps over such a character as an invalid one. The per-step lemmas of `ScannerProperties` describe the original under the same restriction.
- Lexer.Run: models the loop of the original only on ASCII text, for the reason given for `ScanToken`.
- ScannerProperties.PanicOnlyAtSlash: requires ASCII text, because the original also panics on any non-ASCII text.
- ScannerProperties.NoSlashNeverPanics: requires ASCII text, because the original also panics on any non-ASCII text.
- ScannerProperties.UnknownCharacterStep: requires ASCII text; a non-ASCII letter goes down the identifier path in the original, and a non-ASCII input panics.
- Lexer.Scan: requires ASCII input. On other input the original's byte-length end test and its char-indexed reads disagree, and `is_numeric` / `is_alphanumeric` are Unicode-aware.
- Lexer.ScanTokens: requires ASCII input, for the same reason as `Scan`.
- Rust lifetimes and borrowed `&str` lexemes are represented as offsets into the source.
