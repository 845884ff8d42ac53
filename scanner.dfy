/**
 * Reference definition of one call of the S-expression scanner, written as
 * pure functions over the loaded source. `src` is the whole buffer including
 * the terminating zero byte at its last index; an index `i` names the byte
 * the lexer currently holds as its lookahead.
 */
module Scanner {
  import opened CharClass

  /** The token kinds of the scanner (TK_INVALID ... TK_EOF). */
  datatype TokenType = Invalid | ParBeg | ParEnd | Symbol | String | Number | Keyword | Eof

  /**
   * The semantic value of a token. `num` holds the text of a numeric
   * lexeme (the bytes the source hands to atof); `str` the text of a
   * string, keyword or symbol.
   */
  datatype SemInfo = SemInfo(num: seq<Byte>, str: seq<Byte>)

  const EmptySem := SemInfo([], [])

  datatype Token = Token(kind: TokenType, sem: SemInfo)

  /** A string literal whose closing delimiter never came before the terminator. */
  datatype LexError = UnterminatedString(delimiter: Byte, line: int)

  datatype Result<T, E> = Ok(value: T) | Err(error: E)

  /** A loaded buffer: at least the terminator, which is a zero byte. */
  predicate Terminated(src: seq<Byte>) {
    |src| > 0 && src[|src| - 1] == Nul
  }

  /**
   * The end of the maximal run of bytes in class `r` that starts at `i`.
   * The terminator never belongs to the class, so the run always ends.
   */
  function RunEnd(src: seq<Byte>, i: nat, r: Run): (j: nat)
    requires Terminated(src) && i < |src|
    ensures i <= j < |src| && !InRun(r, src[j])
    decreases |src| - i
  {
    if InRun(r, src[i]) then RunEnd(src, i + 1, r) else i
  }

  /**
   * The index of the first `d` at or after `i` that lies before the
   * terminator, or the terminator's index when there is none.
   */
  function CloseIndex(src: seq<Byte>, i: nat, d: Byte): (j: nat)
    requires Terminated(src) && i < |src| && d != Nul
    ensures i <= j < |src|
    ensures j == |src| - 1 || src[j] == d
    decreases |src| - i
  {
    if i == |src| - 1 || src[i] == d then i else CloseIndex(src, i + 1, d)
  }

  /** Where the lexer stands: the index of its lookahead byte and its line counter. */
  datatype Position = Position(at: nat, nline: int)

  /**
   * The separator phase of GetToken: skip blanks, newlines (counting each)
   * and `;` comments, stopping at the first byte that starts a token or at
   * a zero byte.
   */
  function Skip(src: seq<Byte>, i: nat, nline: int): (p: Position)
    requires Terminated(src) && i < |src|
    ensures i <= p.at < |src| && p.nline >= nline
    ensures !IsSeparator(src[p.at])
    decreases |src| - i
  {
    var c := src[i];
    if c == Nul then Position(i, nline)
    else if IsNewline(c) then Skip(src, i + 1, nline + 1)
    else if IsBlank(c) then Skip(src, i + 1, nline)
    else if c == Semicolon then Skip(src, RunEnd(src, i, CommentBody), nline)
    else Position(i, nline)
  }

  /** No newline among the bytes from `j` to `k`, both included. */
  predicate NoNewline(src: seq<Byte>, j: nat, k: nat)
    requires k < |src|
  {
    forall m {:trigger IsNewline(src[m])} :: j <= m <= k ==> !IsNewline(src[m])
  }

  /** The byte at `k` is comment text: it follows a `;` at or after `i` on the same line. */
  predicate CommentText(src: seq<Byte>, i: nat, k: nat)
    requires k < |src|
  {
    exists j :: i <= j <= k && src[j] == Semicolon && NoNewline(src, j, k)
  }

  /**
   * The effect of one GetToken call: its result, the accumulation buffer it
   * leaves, the semantic text it extracts, the index of the new lookahead
   * byte and the new line counter.
   */
  datatype Step = Step(result: Result<TokenType, LexError>, buf: seq<Byte>, text: seq<Byte>, next: nat, nline: int)

  /**
   * The classification phase of GetToken: the token that starts at the
   * lookahead `p.at`, which is a zero byte or no separator.
   */
  function Scan(src: seq<Byte>, p: Position): (s: Step)
    requires Terminated(src) && p.at < |src|
    ensures p.at <= s.next < |src| && s.nline == p.nline
    ensures s.result != Ok(Eof) && s.result != Ok(Invalid) ==> s.next > p.at
  {
    var j, n := p.at, p.nline;
    var c := src[j];
    if c == Nul then Step(Ok(Eof), [], [], j, n)
    else if c == OpenParen then Step(Ok(ParBeg), [], [], j + 1, n)
    else if c == CloseParen then Step(Ok(ParEnd), [], [], j + 1, n)
    else if IsQuote(c) then
      var e := CloseIndex(src, j + 1, c);
      if e < |src| - 1 then Step(Ok(String), src[j..e + 1], src[j + 1..e], e + 1, n)
      else Step(Err(UnterminatedString(c, n)), src[j..e], [], e, n)
    else if IsDigit(c) then
      var e := RunEnd(src, j, Numeric);
      Step(Ok(Number), src[j..e], src[j..e], e, n)
    else if c == Colon then
      var e := RunEnd(src, j + 1, KeywordBody);
      Step(Ok(Keyword), src[j + 1..e], src[j + 1..e], e, n)
    else if IsAlnum(c) then
      var e := RunEnd(src, j, SymbolBody);
      Step(Ok(Symbol), src[j..e], src[j..e], e, n)
    else Step(Ok(Invalid), [], [], j, n)
  }

  /**
   * The classification phase described case by case, as the switch of
   * GetToken reads: `r`, `buf`, `at` and `sem'` are the result, the buffer,
   * the lookahead index and the semantic value after reading the token that
   * starts at `p.at`. It restates Scan case by case only to keep the proof of
   * ScanToken, whose state is on the heap, small; ScannedIsScan proves that
   * the two agree.
   */
  predicate Scanned(src: seq<Byte>, p: Position, r: Result<TokenType, LexError>, buf: seq<Byte>, at: int,
                    sem: SemInfo, sem': SemInfo)
    requires Terminated(src) && p.at < |src|
  {
    var c, j := src[p.at], p.at;
    && j <= at < |src|
    && (c == Nul || c == OpenParen || c == CloseParen || !(IsQuote(c) || IsAlnum(c) || c == Colon) ==>
          && r == (if c == Nul then Ok(Eof) else if c == OpenParen then Ok(ParBeg)
                   else if c == CloseParen then Ok(ParEnd) else Ok(Invalid))
          && buf == [] && sem' == sem
          && at == (if c == OpenParen || c == CloseParen then j + 1 else j))
    && (IsQuote(c) ==>
          var e := CloseIndex(src, j + 1, c);
          && r == (if e < |src| - 1 then Ok(String) else Err(UnterminatedString(c, p.nline)))
          && buf == src[j..at]
          && at == (if e < |src| - 1 then e + 1 else e)
          && sem' == (if e < |src| - 1 then sem.(str := src[j + 1..e]) else sem))
    && (IsDigit(c) ==>
          r == Ok(Number) && at == RunEnd(src, j, Numeric) && buf == src[j..at] && sem' == sem.(num := buf))
    && (c == Colon ==>
          r == Ok(Keyword) && at == RunEnd(src, j + 1, KeywordBody) && buf == src[j + 1..at] && sem' == sem.(str := buf))
    && (IsAlpha(c) ==>
          r == Ok(Symbol) && at == RunEnd(src, j, SymbolBody) && buf == src[j..at] && sem' == sem.(str := buf))
  }

  /** The case-by-case description determines the step Scan computes. */
  lemma ScannedIsScan(src: seq<Byte>, p: Position, r: Result<TokenType, LexError>, buf: seq<Byte>, at: int,
                      sem: SemInfo, sem': SemInfo)
    requires Terminated(src) && p.at < |src|
    requires Scanned(src, p, r, buf, at, sem, sem')
    ensures var s := Scan(src, p);
      r == s.result && buf == s.buf && at == s.next && sem' == SemAfter(sem, s)
  {
    var c, j := src[p.at], p.at;
    if IsQuote(c) {
      var e := CloseIndex(src, j + 1, c);
      if e < |src| - 1 {
        assert Scan(src, p) == Step(Ok(String), src[j..e + 1], src[j + 1..e], e + 1, p.nline);
      } else {
        assert Scan(src, p) == Step(Err(UnterminatedString(c, p.nline)), src[j..e], [], e, p.nline);
      }
    } else if IsDigit(c) {
      var e := RunEnd(src, j, Numeric);
      assert Scan(src, p) == Step(Ok(Number), src[j..e], src[j..e], e, p.nline);
    } else if c == Colon {
      var e := RunEnd(src, j + 1, KeywordBody);
      assert Scan(src, p) == Step(Ok(Keyword), src[j + 1..e], src[j + 1..e], e, p.nline);
    } else if IsAlpha(c) {
      var e := RunEnd(src, j, SymbolBody);
      assert Scan(src, p) == Step(Ok(Symbol), src[j..e], src[j..e], e, p.nline);
    }
  }

  /** One call of GetToken from lookahead index `i` with line counter `nline`. */
  function NextToken(src: seq<Byte>, i: nat, nline: int): (s: Step)
    requires Terminated(src) && i < |src|
    ensures i <= s.next < |src| && s.nline >= nline
    ensures s.result != Ok(Eof) && s.result != Ok(Invalid) ==> s.next > i
  {
    Scan(src, Skip(src, i, nline))
  }

  /** The semantic value after a step: only the field the token kind fills changes. */
  function SemAfter(sem: SemInfo, s: Step): SemInfo {
    match s.result
    case Ok(Number) => sem.(num := s.text)
    case Ok(String) => sem.(str := s.text)
    case Ok(Keyword) => sem.(str := s.text)
    case Ok(Symbol) => sem.(str := s.text)
    case _ => sem
  }

  /** Saving the byte at `k` extends a buffer that holds `src[a..k]` to one that holds `src[a..k + 1]`. */
  lemma SaveExtends(b: seq<Byte>, src: seq<Byte>, a: nat, k: nat)
    requires a <= k < |src|
    ensures b + src[a..k] + [src[k]] == b + src[a..k + 1]
    ensures b + src[a..a] == b
  {
    assert src[a..k + 1] == src[a..k] + [src[k]];
  }

  /** Saving `src[a]` and then `src[a + 1..k]` saves `src[a..k]`. */
  lemma SavedAfter(b: seq<Byte>, src: seq<Byte>, a: nat, k: nat)
    requires a < k <= |src|
    ensures b + [src[a]] + src[a + 1..k] == b + src[a..k]
  {
    assert src[a..k] == [src[a]] + src[a + 1..k];
  }

  /** A buffer that was empty before a scan holds exactly the bytes the scan saved. */
  lemma SavedIntoEmpty(src: seq<Byte>, a: nat, b: nat)
    requires a <= b <= |src|
    ensures [] + src[a..b] == src[a..b]
  {}

  /** Number of newline bytes in `s`. */
  function Newlines(s: seq<Byte>): nat {
    if s == [] then 0 else (if IsNewline(s[0]) then 1 else 0) + Newlines(s[1..])
  }
}
