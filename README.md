# S-expression scanner of sly, modelled in Dafny

This project models the lexical scanner in `src/sexp.cpp` of sly. The scanner turns a
NUL-terminated byte buffer into tokens: parentheses, symbols, numbers, strings and
`:keywords`. It skips blanks, newlines and `;` comments, and it counts lines.

The model has two layers.

* **Reference definitions** (`Scanner`, `ScannerFacts`) are pure functions over the
  loaded buffer `src`. The last byte of `src` is the terminator.
  * `Skip` is the separator phase of `GetToken`.
  * `Scan` is its classification switch.
  * `NextToken` is one whole call.
  * The lemmas in `ScannerFacts` state what each token kind is, how lines are
    counted, and when the scanner stops.
* **Imperative model** (`Lexer`, `Driver`) follows the source's own shape:
  * an `InputStream` class with a forward-only cursor;
  * a `LexState` class with a one-byte lookahead `cur`, a line counter `nline` and an
    accumulation buffer `buf`;
  * `ReadNumeric`, `ReadString` and `GetToken`, which update that state with `while`
    loops;
  * the token loop of `main`.

  Each method's postcondition ties the new state to the reference definitions. For
  example, `GetToken` ends with exactly the result, buffer, lookahead index and line
  counter of `NextToken`.

Bytes are integers 0..255 (`CharClass.Byte`). `isdigit` and `isalnum` have their ASCII
meaning. The numeric value of a number token is kept as its lexeme text.

## Model

| member | source | states |
|---|---|---|
| CharClass.IsNewline | src/sexp.cpp:57-59 | `\n` and `\r` are the newline bytes, each counted as one line |
| Scanner.RunEnd | src/sexp.cpp:128-130 | a maximal-run loop stops inside the buffer, on the first byte outside its class |
| Scanner.CloseIndex | src/sexp.cpp:139-142 | the string loop stops inside the buffer, on the delimiter or on the terminator |
| Scanner.Skip | src/sexp.cpp:154-181 | the separator phase stops at or after its start, on a byte that is no separator, and never lowers the line counter |
| Scanner.Scan | src/sexp.cpp:158-225 | classification never moves the lookahead back and keeps the line counter; every token other than Eof and Invalid consumes at least one byte |
| Scanner.NextToken | src/sexp.cpp:150-228 | one call never moves the lookahead back nor past the terminator, never lowers the line counter, and consumes at least one byte unless it returns Eof or Invalid |
| Scanner.ScannedIsScan | src/sexp.cpp:158-225 | the case-by-case reading of the switch (`Scanned`) determines the reference step's result, buffer, lookahead and semantic value |
| ScannerFacts.RunEndSpan | src/sexp.cpp:128-130 | every byte a run loop passes belongs to its class |
| ScannerFacts.CloseIndexFirst | src/sexp.cpp:139-142 | no delimiter lies between the opening quote and the closing index |
| ScannerFacts.SkipCountsNewlines | src/sexp.cpp:163-167 | the separator phase adds exactly the number of `\n` and `\r` bytes it passes (`\r\n` is two lines), since a comment holds none |
| ScannerFacts.SkipPassesSeparators | src/sexp.cpp:163-181 | every byte skipped is a blank, a newline, or comment text: it follows a `;` on its own line, so a letter, digit, quote or parenthesis is skipped only inside a comment |
| ScannerFacts.NextTokenBounds | src/sexp.cpp:150-228 | one call keeps the lookahead within the buffer and never moves it back; the line counter grows only by the newlines before the token, so newlines inside a string are not counted |
| ScannerFacts.EofIdempotent | src/sexp.cpp:158 | Eof is returned exactly at a zero byte, consumes nothing, and every further call returns the same step |
| ScannerFacts.InvalidIsStuck | src/sexp.cpp:208-222 | Invalid is returned exactly for bytes no case accepts, consumes nothing, and repeats on every further call |
| ScannerFacts.ParenToken | src/sexp.cpp:182-188 | `(` and `)` are tokens exactly when they are the first byte after the separators, and each consumes only itself |
| ScannerFacts.StringToken | src/sexp.cpp:135-148 | a string token starts at a quote that is closed before the terminator; its text is the buffer minus both delimiters and holds no delimiter; the lookahead is the byte after the closing one |
| ScannerFacts.UnterminatedStringError | src/sexp.cpp:139-142 | an unclosed quote is an error that leaves the lookahead on the terminator, having saved every byte before it |
| ScannerFacts.NumberToken | src/sexp.cpp:125-133 | a number token starts at a digit and is the maximal non-empty run of digits and dots |
| ScannerFacts.KeywordToken | src/sexp.cpp:200-207 | a keyword token starts at a colon; its text drops the colon and is the maximal run (possibly empty) of alphanumerics, `_` and `-` |
| ScannerFacts.SymbolToken | src/sexp.cpp:208-216 | a symbol token starts at a letter and is the maximal non-empty run of alphanumerics |
| ScannerFacts.CrLfCountsTwoLines | src/sexp.cpp:163-167 | `\r\n` before the end counts two lines |
| ScannerFacts.CommentThenParen | src/sexp.cpp:176-185 | a comment is skipped up to its newline, which is counted, and the next token follows |
| ScannerFacts.NewlineInString | src/sexp.cpp:135-148 | a newline inside a string is part of its text and counts no line |
| ScannerFacts.UnclosedString | src/sexp.cpp:135-142 | a string with no closing quote ends on the terminator with an error |
| ScannerFacts.EmptyKeyword | src/sexp.cpp:200-207 | a colon followed by `)` is a keyword with empty text |
| ScannerFacts.HyphenEndsSymbol | src/sexp.cpp:208-222 | `-` ends a symbol and, on its own, is an invalid byte |
| ScannerFacts.DotsInNumber | src/sexp.cpp:128-130 | every dot and digit belongs to the number lexeme, however many dots there are |
| ScannerFacts.SourceCloseIndex | src/sexp.cpp:139-142 | the string loop as written exits only on the delimiter; when there is none it finds no index within the buffer |
| ScannerFacts.UnclosedStringOverruns | src/sexp.cpp:139-142 | for `"a` the loop as written finds no delimiter within the buffer |
| ScannerFacts.CloseIndexAgrees | src/sexp.cpp:139-142 | the bounded loop agrees with the loop as written whenever a delimiter follows, and stops on the terminator exactly when the loop as written would overrun |
| Lexer.InputStream.constructor | src/sexp.cpp:68-70 | a new stream starts at position 0 |
| Lexer.InputStream.Next | src/sexp.cpp:72-75 | returns the byte under the cursor and advances by one; it requires `pos <= size`, the source's assertion |
| Lexer.LexState.Valid | src/sexp.cpp:72-75 | the lookahead is the byte just read, and the cursor stays within the buffer: the lookahead index is at most `size` |
| Lexer.LexState.Init | src/sexp.cpp:89-96 | the line counter starts at 1 and the lookahead holds the first byte, with the cursor one past it |
| Lexer.LexState.Next | src/sexp.cpp:98-100 | the lookahead becomes the next byte; the line counter and buffer are unchanged |
| Lexer.LexState.SaveAndNext | src/sexp.cpp:102-105 | appends the lookahead to the buffer, then advances |
| Lexer.LexState.ResetBuf | src/sexp.cpp:107-109 | the buffer becomes empty |
| Lexer.LexState.IncLineNumber | src/sexp.cpp:111-113 | the line counter goes up by one |
| Lexer.ReadNumeric | src/sexp.cpp:125-133 | saves the maximal run of digits and dots and stores the whole buffer as the numeric lexeme |
| Lexer.SaveUntil | src/sexp.cpp:139-142 | saves bytes up to the closing delimiter, or up to the terminator when there is none |
| Lexer.ReadString | src/sexp.cpp:135-148 | saves the literal with both delimiters; when it is closed, the text is the buffer without its first and last byte; otherwise it reports that it is unclosed |
| Lexer.SkipComment | src/sexp.cpp:176-181 | moves to the first newline or zero byte after the `;` |
| Lexer.SkipSeparators | src/sexp.cpp:154-181 | stops exactly where `Skip` stops, with `Skip`'s line count |
| Lexer.ReadKeyword | src/sexp.cpp:200-207 | drops the colon and saves the maximal keyword run as the text |
| Lexer.ReadSymbol | src/sexp.cpp:208-216 | saves the alphanumeric lookahead and the maximal alphanumeric run after it as the text |
| Lexer.ScanToken | src/sexp.cpp:158-225 | from an empty buffer, the state after the switch is the one `Scanned` describes for the lookahead byte |
| Lexer.GetToken | src/sexp.cpp:150-228 | result, buffer, lookahead index, line counter and semantic value are exactly those of `NextToken` |
| Driver.Tokenize | src/sexp.cpp:256-266 | the token sequence ends with Eof (or, cut short, Invalid), and no earlier token is Eof or Invalid |
| Driver.ReadTokens | src/sexp.cpp:252-266 | the loop that calls GetToken with a fresh semantic value collects exactly `Tokenize`'s tokens |
| Driver.Lex | src/sexp.cpp:249-266 | initialising the lexer and running the loop yields `Tokenize` from index 0, line 1 |
| Driver.SkipToNul | src/sexp.cpp:158-181 | over blanks, newlines and `;` comments the separator phase stops only on a zero byte |
| Driver.BlankInputIsEof | src/sexp.cpp:154-181 | input made only of blanks, newlines and `;` comments yields the Eof token alone |
| Driver.TokenizeMore | src/sexp.cpp:256-266 | after a token other than Eof and Invalid, the loop goes on from the new lookahead and line counter |
| Driver.ParenStep | src/sexp.cpp:182-188 | a parenthesis at the lookahead is one token, and the loop continues from the byte after it |
| Driver.ParensOnly | src/sexp.cpp:182-188 | input made only of parentheses yields one token per byte, then Eof |

## Left out

- ReadSexp, the file reading at src/sexp.cpp:12-31, is I/O. The buffer it returns is a parameter here: `fsize` bytes followed by a zero byte.
- The printing in `main`, `LexState::DebugPrint` and the `s_tokenLabels` table are output only and are not modelled.
- `atof`: the source converts a number's buffer to `float`. The model keeps the lexeme bytes (`SemInfo.num`) because floating point is not modelled.
- Lexer.ReadString: the model ends an unclosed string on the terminator with `UnterminatedString` and no semantic text. The source's loop reads on past the buffer (see Findings).
- `ASSERT(0)` at src/sexp.cpp:221 aborts debug builds. The model follows release builds and returns Invalid without consuming the byte.
- Driver.ReadTokens: `main` loops forever on an Invalid token, since each call returns it again. The model stops after the first one and reports `Stuck`.
- Bytes 0x80 and above are negative `char` values in the source. `isalnum` of those is undefined behaviour. The model treats them as belonging to no class, so they are invalid bytes outside strings and comments.
- `int` overflow of `pos`, `m_size` and `nline` is not modelled. Integers are unbounded.
- Lexer.LexState.Init: the default constructor (nline = 1) and `Init` are one constructor here. The stream is created with the lexer.
- The comment, keyword and symbol loops are written inline in GetToken's `for (;;)`. In the model they are separate methods: `SkipComment`, `SkipSeparators`, `ReadKeyword`, `ReadSymbol` and `ScanToken`. The `for (;;)` loop becomes a separator loop followed by the switch; the cases and their order are the same.

## Findings

| source | as written | input that shows it | evidently intended | confidence | as-written member | corrected member |
|---|---|---|---|---|---|---|
| src/sexp.cpp:139-142 | the string loop stops only on the delimiter | `"a` with no closing quote: the loop reaches the terminator and calls `Next` past it (the assertion `pos <= m_size` fails; release builds read past the buffer) | stop on the terminator and report the unclosed string | not executed | ScannerFacts.UnclosedStringOverruns | ScannerFacts.UnterminatedStringError |
| src/sexp.cpp:221-222 | after `ASSERT(0)` the byte is left unconsumed and `main` calls GetToken again | `-` alone: every call returns Invalid at the same index, so `main`'s loop never ends | the token loop ends at an invalid byte | not executed | ScannerFacts.InvalidIsStuck | Driver.ReadTokens |
