/**
 * Byte values and the character classes the S-expression scanner tests.
 * Only the ASCII ("C" locale) meaning of isdigit/isalnum is modelled:
 * every byte at or above 0x80 belongs to no class.
 */
module CharClass {

  /** One byte of the loaded source text. */
  type Byte = b: int | 0 <= b < 256

  const Nul: Byte := 0
  const Tab: Byte := 9
  const LineFeed: Byte := 10
  const VerticalTab: Byte := 11
  const FormFeed: Byte := 12
  const CarriageReturn: Byte := 13
  const Space: Byte := 32
  const DoubleQuote: Byte := 34
  const SingleQuote: Byte := 39
  const OpenParen: Byte := 40
  const CloseParen: Byte := 41
  const Hyphen: Byte := 45
  const Dot: Byte := 46
  const Colon: Byte := 58
  const Semicolon: Byte := 59
  const Underscore: Byte := 95

  /** `\n` or `\r`: each one bumps the line counter. */
  predicate IsNewline(c: Byte) {
    c == LineFeed || c == CarriageReturn
  }

  /** Space, `\t`, `\f` and `\v`: skipped without any other effect. */
  predicate IsBlank(c: Byte) {
    c == Space || c == Tab || c == FormFeed || c == VerticalTab
  }

  /** Bytes the main loop consumes without producing a token. */
  predicate IsSeparator(c: Byte) {
    IsNewline(c) || IsBlank(c) || c == Semicolon
  }

  predicate IsDigit(c: Byte) {
    '0' as int <= c <= '9' as int
  }

  predicate IsAlpha(c: Byte) {
    ('A' as int <= c <= 'Z' as int) || ('a' as int <= c <= 'z' as int)
  }

  predicate IsAlnum(c: Byte) {
    IsDigit(c) || IsAlpha(c)
  }

  /** String delimiters: `"` and `'`. */
  predicate IsQuote(c: Byte) {
    c == DoubleQuote || c == SingleQuote
  }

  /** Bytes ReadNumeric keeps: digits and `.`. */
  predicate IsNumeric(c: Byte) {
    IsDigit(c) || c == Dot
  }

  /** Bytes a keyword keeps after its colon: alphanumerics, `_` and `-`. */
  predicate IsKeywordChar(c: Byte) {
    IsAlnum(c) || c == Underscore || c == Hyphen
  }

  /** Bytes a `;` comment swallows: everything up to a newline or a zero byte. */
  predicate InComment(c: Byte) {
    !IsNewline(c) && c != Nul
  }

  /** The byte classes whose maximal runs the scanner consumes. */
  datatype Run = Numeric | KeywordBody | SymbolBody | CommentBody

  /** Membership in a run class; the zero byte belongs to none of them. */
  predicate InRun(r: Run, c: Byte) {
    match r
    case Numeric => IsNumeric(c)
    case KeywordBody => IsKeywordChar(c)
    case SymbolBody => IsAlnum(c)
    case CommentBody => InComment(c)
  }
}
