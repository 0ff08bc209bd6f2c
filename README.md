# go-json-parser, first stage: lexer and parser in Dafny

This project models the core of a small JSON validator written in Go: a
lexer that turns the input text into tokens, and a parser that pulls tokens
from it and answers yes or no. At this stage of the program the two pieces
recognise exactly one document shape, the empty object. So the model covers
only what the code does: an opening brace, optional white space, a closing
brace, with optional white space around the whole text.

- `lexer.dfy` (module `Lexer`): the token types and their string names.
  Two white-space sets: the one trimmed from the ends of the input, and the
  four characters skipped between tokens. Trimming, as functions with
  proved contracts. The tokenizer as a function `Scan` of the text and the
  cursor, and the whole token stream `TokenStream`. The `Lexer` class, with
  its constant `input` and mutable `pos`, its constructor `NewLexer` and the
  method `NextToken`. `NextToken` keeps the source's loop and is proved
  against `Scan`.
- `parser.dfy` (module `Parser`): the parser states `Start`,
  `ExpectKeyOrEnd` and `Done`. The transition table `Transition`, the
  specification of a whole parse `Run`, and the `Parser` class. Its method
  `Parse` keeps the source's unbounded loop. The loop's termination measure
  is the rank of the state, and the method is proved against `Run`. The
  lemmas relate `Run` to the token stream and the token stream to the text.
- `validation.dfy` (module `Validation`): the way the command line and the
  tests drive the core. `Validate` builds a lexer and a parser over a text
  and calls `Parse`. It is proved to return true exactly when the trimmed
  text is `{`, skippable white space, `}`. It also holds the verdicts of the
  parser's tests as lemmas.

The headline result is the contract of `Validation.Validate`. It rests on
`Parser.Parser.Parse` (the verdict equals "the token stream is `{`, `}`,
EOF"), and on `Parser.EmptyObjectTokens` (on text that does not start or end
with white space, that token stream comes exactly from `{` ws* `}`).
`Lexer.TrimSpace` guarantees that the lexer holds such a text.

This stage of the program implements no strings, numbers, keywords,
arrays, commas or colons, and the model has none either. The input is
trimmed with Go's `strings.TrimSpace`, which removes every Unicode
white-space character from both ends, including vertical tab and form feed.
Between the braces, though, the lexer skips only space, tab, CR and LF. The
model keeps these two sets apart (`IsTrimSpace`, `IsSkipSpace`). The lemmas
`TrimmedAtTheEnds` and `SingleCharacterInside` show the difference.

## Model

| member | source | states |
|---|---|---|
| `Lexer.TokenType` | lexer/lexer.go:5-10 | the four token types; `Name()` gives each one's string constant `{`, `}`, `EOF`, `INVALID` |
| `Lexer.TokenTypeNamesDistinct` | lexer/lexer.go:5-10 | two token types have the same string constant exactly when they are the same type, so comparing types is comparing those strings |
| `Lexer.Token` | lexer/lexer.go:12-15 | a token is its type and its literal text |
| `Lexer.IsSkipSpace` | lexer/lexer.go:31 | the characters skipped between tokens: space, tab, LF and CR |
| `Lexer.IsTrimSpace` | lexer/lexer.go:23 | the characters `strings.TrimSpace` removes: the Unicode White_Space code points, including vertical tab and form feed |
| `Lexer.TrimStart` | lexer/lexer.go:23 | the count of leading characters removed by trimming: all of them are white space, and the next one is not |
| `Lexer.TrimEnd` | lexer/lexer.go:23 | the length kept after trailing white space is removed: everything after it is white space, and the last kept character is not |
| `Lexer.TrimSpace` | lexer/lexer.go:23 | the trimmed text is a slice of the input that neither starts nor ends with white space, and everything cut off on either side is white space |
| `Lexer.TrimSpaceUnique` | lexer/lexer.go:23 | whenever a text is white space, then r with no white space at either end, then white space, trimming it gives exactly r |
| `Lexer.TrimSpaceIdempotent` | lexer/lexer.go:23 | trimming an already trimmed text changes nothing |
| `Lexer.SkipSpaceIsTrimSpace` | lexer/lexer.go:31 | every character skipped between tokens is also trimmed; vertical tab and form feed are trimmed but not skipped |
| `Lexer.SkipSpace` | lexer/lexer.go:28-33 | the skip loop stops at the first position at or after the cursor that is not space, tab, LF or CR, or at the end; everything it passes over is one of those four |
| `Lexer.Scan` | lexer/lexer.go:26-45 | one call of NextToken never moves the cursor back or past the end, and a brace token always moves it forward |
| `Lexer.ScanBrace` | lexer/lexer.go:34-39 | a `{` or `}` token has its type name as its literal; the cursor ends just past that brace; every character skipped before it is skippable white space |
| `Lexer.ScanInvalidSticks` | lexer/lexer.go:40-41 | an INVALID token carries the single offending character, which is not white space or a brace; the cursor stays on it, so the next call returns the same token and leaves the cursor in place |
| `Lexer.ScanEof` | lexer/lexer.go:28-44 | EOF is returned exactly when only skippable white space remains; it has an empty literal, leaves the cursor at the end, and is returned again on the next call |
| `Lexer.TokenStream` | lexer/lexer.go:26-45 | the tokens returned from a cursor on form a non-empty sequence of braces ended by EOF or INVALID |
| `Lexer.Lexer.NewLexer` | lexer/lexer.go:22-24 | the new lexer holds the trimmed input, with the cursor at 0 |
| `Lexer.Lexer.NextToken` | lexer/lexer.go:26-45 | the cursor never decreases and stays within the input; the token returned and the new cursor are those of `Scan` from the old cursor |
| `Lexer.TokenizeEmptyObject` | lexer/lexer_test.go:7-22 | three calls on a lexer over `{}` return `{`, `}` and EOF (empty literal), in that order |
| `Parser.ParserState` | parser/parser.go:13-19 | the three parser states `Start`, `ExpectKeyOrEnd` and `Done` |
| `Parser.Transition` | parser/parser.go:41-74 | the only accepting entry is EOF in Done; the only continuing entries are `{` in Start and `}` in ExpectKeyOrEnd; each of them lowers the state's rank; every other token is rejected |
| `Parser.Run` | parser/parser.go:38-77 | a parse ends with the cursor between where it started and the end of input, and at the end of input when it accepts |
| `Parser.RunDone` | parser/parser.go:57-70 | in state Done, the parse accepts exactly when the next token is EOF; a second `}` or any other token is rejected |
| `Parser.RunExpectKeyOrEnd` | parser/parser.go:52-74 | in state ExpectKeyOrEnd, a `}` moves on to Done; EOF, INVALID (from `,` or other text) or another `{` is rejected at once |
| `Parser.RunRejectsWithoutOpen` | parser/parser.go:41-47 | if the first token is not `{`, the parse rejects after reading just that token |
| `Parser.RunAccepts` | parser/parser.go:38-77 | the parse accepts exactly when the lexer's token stream is `{`, `}`, EOF |
| `Parser.EmptyObjectHasTokens` | parser/parser.go:38-77 | a text made of `{`, skippable white space and `}` tokenizes as `{`, `}`, EOF |
| `Parser.TokensAreEmptyObject` | parser/parser.go:38-77 | on a text that does not start or end with skippable white space, the token stream `{`, `}`, EOF comes only from `{` ws* `}` |
| `Parser.EmptyObjectTokens` | parser/parser.go:38-77 | on a trimmed text, the token stream is `{`, `}`, EOF if and only if the text is `{` ws* `}` |
| `Parser.Parser.NewParser` | parser/parser.go:34-36 | the parser wraps the given lexer |
| `Parser.Parser.Parse` | parser/parser.go:38-77 | the verdict and the lexer's new cursor are those of `Run` from the old cursor; it returns true if and only if the token stream is `{`, `}`, EOF; the loop runs at most twice |
| `Validation.Validate` | parser/parser_test.go:11-13 | lexing and parsing a text returns true if and only if the trimmed text is `{`, then zero or more of space, tab, LF, CR, then `}` |
| `Validation.ParserTestEmptyObject` | parser/parser_test.go:26 | `{}` is valid |
| `Validation.ParserTestOnlyOpeningBrace` | parser/parser_test.go:27 | `{` is invalid |
| `Validation.ParserTestOnlyClosingBrace` | parser/parser_test.go:28 | `}` is invalid |
| `Validation.ParserTestExtraComma` | parser/parser_test.go:29 | `{,}` is invalid |
| `Validation.ParserTestTrailingCharacters` | parser/parser_test.go:30 | `{} extra` is invalid |
| `Validation.ParserTestJustString` | parser/parser_test.go:31 | `"key"` is invalid |
| `Validation.ParserTestEmptyInput` | parser/parser_test.go:32 | the empty text is invalid |
| `Validation.WhitespaceAnywhere` | lexer/lexer.go:23-33 | for all texts: any trimmed white space around `{` and `}` and any run of space, tab, LF and CR between them leaves a valid text |
| `Validation.TrimmedAtTheEnds` | lexer/lexer.go:23 | vertical tab and form feed around `{}` are trimmed, so the text is valid |
| `Validation.SingleCharacterInside` | lexer/lexer.go:31-41 | a single character between the braces gives a valid text exactly when it is space, tab, LF or CR; any other character there except a brace (vertical tab, form feed, a comma) is read as an INVALID token carrying that character, with the cursor left on it |

## Left out

- The debug output of `Parse` (the `fmt.Printf`/`fmt.Println` lines) and the
  `String()` names of the parser states: diagnostic output only, it has no
  effect on the verdict or the cursor.
- `cmd/root.go` (command line, file or standard input, the `.json` extension
  check, reading line by line, messages and the exit code) and
  `internal/utils/io.go` (file and terminal checks): input and output glue.
  `Validate` stands for the two lines that build the lexer and the parser
  and call `Parse`.
- Bytes versus characters: the Go lexer indexes the input by bytes, while
  the model's input is a sequence of Unicode code points. The verdict is the
  same, because no non-ASCII character is skippable or a brace. But the
  model's cursor counts characters, not bytes. For an offending non-ASCII
  character, the model's INVALID literal is that character. Go's literal is
  the conversion of its first byte to a string.
- Go's `strings.TrimSpace` decodes UTF-8. The model assumes valid text (a
  sequence of code points). Invalid UTF-8 is not modelled.
- `Lexer.IsTrimSpace` stands for Go's `unicode.IsSpace`, written out as the
  list of Unicode White_Space code points. It is not derived from the Go
  library.
- The width of Go's `int` for the cursor: it never exceeds the input length,
  so no overflow arises, and the model uses `nat`.
- `Parser.Parser.Parse` has a ghost out-parameter that counts the loop's
  rounds. It has no counterpart in the Go code.
