/**
 * The scanner's mutable state and its token-acquisition loop, in the form
 * the source gives them: a forward-only input cursor, a lexer state with a
 * one-byte lookahead, a line counter and an accumulation buffer, and
 * GetToken, which updates that state step by step. Every operation is
 * proved against the reference definition in module Scanner.
 */
module Lexer {
  import opened CharClass
  import opened Scanner

  /** A forward-only cursor over a loaded buffer of `size` bytes plus its terminator. */
  class InputStream {
    const src: seq<Byte>
    const size: nat
    var pos: nat

    /** The buffer really ends with its terminator at index `size`. */
    predicate Valid() {
      |src| == size + 1 && src[size] == Nul
    }

    constructor (src: seq<Byte>, size: nat)
      ensures this.src == src && this.size == size && pos == 0
    {
      this.src := src;
      this.size := size;
      pos := 0;
    }

    /** Returns the byte under the cursor and moves past it; never reads beyond the terminator. */
    method Next() returns (c: Byte)
      requires Valid() && pos <= size
      modifies this`pos
      ensures c == src[old(pos)] && pos == old(pos) + 1
    {
      c := src[pos];
      pos := pos + 1;
    }
  }

  class LexState {
    var cur: Byte
    var nline: int
    const stream: InputStream
    var buf: seq<Byte>

    /**
     * The lookahead is the byte just read from the stream, the cursor never
     * passes the slot after the terminator, and lines are counted from 1.
     */
    ghost predicate Valid()
      reads this, stream
      ensures Valid() ==> 0 <= At() <= stream.size && |stream.src| == stream.size + 1 && stream.src[At()] == cur
    {
      stream.Valid() && 1 <= stream.pos <= stream.size + 1 && cur == stream.src[stream.pos - 1] && nline >= 1
    }

    /** The lookahead's index in the buffer. */
    ghost function At(): int
      reads this, stream
    {
      stream.pos - 1
    }

    /** Binds the lexer to a loaded buffer and primes the lookahead with its first byte. */
    constructor Init(src: seq<Byte>, nsrc: nat)
      requires |src| == nsrc + 1 && src[nsrc] == Nul
      ensures Valid() && fresh(stream)
      ensures stream.src == src && stream.size == nsrc
      ensures At() == 0 && cur == src[0] && nline == 1 && buf == []
    {
      nline := 1;
      buf := [];
      stream := new InputStream(src, nsrc);
      new;
      Next();
    }

    /** Reads the next byte into the lookahead. */
    method Next()
      requires stream.Valid() && stream.pos <= stream.size
      modifies this`cur, stream`pos
      ensures stream.pos == old(stream.pos) + 1 && cur == stream.src[old(stream.pos)]
      ensures nline == old(nline) && buf == old(buf)
    {
      cur := stream.Next();
    }

    /** Appends the lookahead to the buffer, then reads the next byte. */
    method SaveAndNext()
      requires stream.Valid() && stream.pos <= stream.size
      modifies this`cur, this`buf, stream`pos
      ensures stream.pos == old(stream.pos) + 1 && cur == stream.src[old(stream.pos)]
      ensures buf == old(buf) + [old(cur)] && nline == old(nline)
    {
      buf := buf + [cur];
      Next();
    }

    method ResetBuf()
      modifies this`buf
      ensures buf == []
    {
      buf := [];
    }

    method IncLineNumber()
      modifies this`nline
      ensures nline == old(nline) + 1
    {
      nline := nline + 1;
    }
  }

  /**
   * Saves the maximal run of digits and dots starting at the lookahead;
   * the numeric value is taken from the whole buffer.
   */
  method ReadNumeric(ls: LexState, sem: SemInfo) returns (sem': SemInfo)
    requires ls.Valid()
    modifies ls`cur, ls`buf, ls.stream`pos
    ensures ls.Valid() && ls.nline == old(ls.nline)
    ensures ls.At() == RunEnd(ls.stream.src, old(ls.At()), Numeric)
    ensures ls.buf == old(ls.buf) + ls.stream.src[old(ls.At())..ls.At()]
    ensures sem' == sem.(num := ls.buf)
  {
    ghost var src, start := ls.stream.src, ls.At();
    while IsNumeric(ls.cur)
      invariant ls.Valid() && ls.nline == old(ls.nline)
      invariant start <= ls.At()
      invariant RunEnd(src, ls.At(), Numeric) == RunEnd(src, start, Numeric)
      invariant ls.buf == old(ls.buf) + src[start..ls.At()]
      decreases ls.stream.size + 1 - ls.stream.pos
    {
      SaveExtends(old(ls.buf), src, start, ls.At());
      ls.SaveAndNext();
    }
    sem' := sem.(num := ls.buf);
  }

  /**
   * The loop of ReadString: saves bytes until the lookahead is the
   * delimiter, or is the terminator at index `size` (where the source would
   * read past its buffer).
   */
  method SaveUntil(ls: LexState, delimiter: Byte)
    requires ls.Valid() && delimiter != Nul
    modifies ls`cur, ls`buf, ls.stream`pos
    ensures ls.Valid() && ls.nline == old(ls.nline)
    ensures ls.At() == CloseIndex(ls.stream.src, old(ls.At()), delimiter)
    ensures ls.buf == old(ls.buf) + ls.stream.src[old(ls.At())..ls.At()]
  {
    ghost var src, start, b0 := ls.stream.src, ls.At(), ls.buf;
    SaveExtends(b0, src, start, start);
    while ls.cur != delimiter && ls.stream.pos <= ls.stream.size
      invariant ls.Valid() && ls.nline == old(ls.nline)
      invariant start <= ls.At()
      invariant CloseIndex(src, ls.At(), delimiter) == CloseIndex(src, start, delimiter)
      invariant ls.buf == b0 + src[start..ls.At()]
      decreases ls.stream.size + 1 - ls.stream.pos
    {
      SaveExtends(b0, src, start, ls.At());
      ls.SaveAndNext();
    }
  }

  /**
   * Saves a string literal, both delimiters included, and extracts the text
   * between them. Returns false, leaving the lookahead on the terminator,
   * when no closing delimiter comes before the end of the buffer.
   */
  method ReadString(ls: LexState, delimiter: Byte, sem: SemInfo) returns (closed: bool, sem': SemInfo)
    requires ls.Valid() && ls.cur == delimiter && delimiter != Nul
    modifies ls`cur, ls`buf, ls.stream`pos
    ensures ls.Valid() && ls.nline == old(ls.nline)
    ensures var e := CloseIndex(ls.stream.src, old(ls.At()) + 1, delimiter);
      && closed == (e < ls.stream.size)
      && ls.At() == (if closed then e + 1 else e)
    ensures ls.buf == old(ls.buf) + ls.stream.src[old(ls.At())..ls.At()]
    ensures closed ==> |ls.buf| >= 2 && sem' == sem.(str := ls.buf[1..|ls.buf| - 1])
    ensures closed && old(ls.buf) == [] ==> sem'.str == ls.stream.src[old(ls.At()) + 1..ls.At() - 1]
    ensures !closed ==> sem' == sem
  {
    ghost var src, start, b0 := ls.stream.src, ls.At(), ls.buf;
    SaveExtends(b0, src, start, start);
    ls.SaveAndNext();
    SaveUntil(ls, delimiter);
    SavedAfter(b0, src, start, ls.At());
    if ls.cur != delimiter {
      return false, sem;
    }
    SaveExtends(b0, src, start, ls.At());
    ls.SaveAndNext();
    closed := true;
    sem' := sem.(str := ls.buf[1..|ls.buf| - 1]);
    assert b0 == [] ==> sem'.str == src[start + 1..ls.At() - 1];
  }

  /**
   * The comment case of GetToken's loop: moves the lookahead to the next
   * newline or zero byte, which it does not consume.
   */
  method SkipComment(ls: LexState)
    requires ls.Valid()
    modifies ls`cur, ls.stream`pos
    ensures ls.Valid() && ls.buf == old(ls.buf) && ls.nline == old(ls.nline)
    ensures ls.At() == RunEnd(ls.stream.src, old(ls.At()), CommentBody)
  {
    ghost var src, start := ls.stream.src, ls.At();
    while InComment(ls.cur)
      invariant ls.Valid() && ls.buf == old(ls.buf) && ls.nline == old(ls.nline)
      invariant start <= ls.At()
      invariant RunEnd(src, ls.At(), CommentBody) == RunEnd(src, start, CommentBody)
      decreases ls.stream.size + 1 - ls.stream.pos
    {
      ls.Next();
    }
  }

  /**
   * The separator phase of GetToken's loop: consumes blanks, newlines
   * (counting each) and `;` comments, and stops on the byte where Skip stops.
   */
  method SkipSeparators(ls: LexState)
    requires ls.Valid()
    modifies ls`cur, ls`nline, ls.stream`pos
    ensures ls.Valid() && ls.buf == old(ls.buf)
    ensures Position(ls.At(), ls.nline) == Skip(ls.stream.src, old(ls.At()), old(ls.nline))
  {
    ghost var src, i0, n0 := ls.stream.src, ls.At(), ls.nline;
    while IsSeparator(ls.cur)
      invariant ls.Valid() && ls.buf == old(ls.buf)
      invariant Skip(src, ls.At(), ls.nline) == Skip(src, i0, n0)
      decreases ls.stream.size + 1 - ls.stream.pos
    {
      if IsNewline(ls.cur) {
        ls.IncLineNumber();
        ls.Next();
      } else if IsBlank(ls.cur) {
        ls.Next();
      } else {
        SkipComment(ls);
      }
    }
  }

  /**
   * The keyword case of GetToken: drops the colon under the lookahead, then
   * saves the maximal run of alphanumerics, `_` and `-` after it.
   */
  method ReadKeyword(ls: LexState, sem: SemInfo) returns (sem': SemInfo)
    requires ls.Valid() && ls.cur == Colon
    modifies ls`cur, ls`buf, ls.stream`pos
    ensures ls.Valid() && ls.nline == old(ls.nline)
    ensures ls.At() == RunEnd(ls.stream.src, old(ls.At()) + 1, KeywordBody)
    ensures ls.buf == old(ls.buf) + ls.stream.src[old(ls.At()) + 1..ls.At()]
    ensures sem' == sem.(str := ls.buf)
  {
    ls.Next();
    ghost var src, start := ls.stream.src, ls.At();
    while IsKeywordChar(ls.cur)
      invariant ls.Valid() && ls.nline == old(ls.nline)
      invariant start <= ls.At()
      invariant RunEnd(src, ls.At(), KeywordBody) == RunEnd(src, start, KeywordBody)
      invariant ls.buf == old(ls.buf) + src[start..ls.At()]
      decreases ls.stream.size + 1 - ls.stream.pos
    {
      SaveExtends(old(ls.buf), src, start, ls.At());
      ls.SaveAndNext();
    }
    sem' := sem.(str := ls.buf);
  }

  /**
   * The symbol case of GetToken: saves the alphanumeric lookahead and every
   * alphanumeric byte after it (`_` and `-` end a symbol).
   */
  method ReadSymbol(ls: LexState, sem: SemInfo) returns (sem': SemInfo)
    requires ls.Valid() && IsAlnum(ls.cur)
    modifies ls`cur, ls`buf, ls.stream`pos
    ensures ls.Valid() && ls.nline == old(ls.nline)
    ensures ls.At() == RunEnd(ls.stream.src, old(ls.At()), SymbolBody)
    ensures ls.buf == old(ls.buf) + ls.stream.src[old(ls.At())..ls.At()]
    ensures sem' == sem.(str := ls.buf)
  {
    ghost var src, start := ls.stream.src, ls.At();
    SaveExtends(old(ls.buf), src, start, start);
    ls.SaveAndNext();
    while IsAlnum(ls.cur)
      invariant ls.Valid() && ls.nline == old(ls.nline)
      invariant start < ls.At()
      invariant RunEnd(src, ls.At(), SymbolBody) == RunEnd(src, start, SymbolBody)
      invariant ls.buf == old(ls.buf) + src[start..ls.At()]
      decreases ls.stream.size + 1 - ls.stream.pos
    {
      SaveExtends(old(ls.buf), src, start, ls.At());
      ls.SaveAndNext();
    }
    sem' := sem.(str := ls.buf);
  }

  /**
   * The classification phase of GetToken: reads the token that starts at
   * the lookahead, which the separator phase left on a zero byte or on a
   * byte that is no separator. One postcondition per case of the switch.
   */
  method ScanToken(ls: LexState, sem: SemInfo) returns (r: Result<TokenType, LexError>, sem': SemInfo)
    requires ls.Valid() && ls.buf == [] && !IsSeparator(ls.cur)
    modifies ls`cur, ls`buf, ls.stream`pos
    ensures ls.Valid() && ls.nline == old(ls.nline)
    ensures Scanned(ls.stream.src, Position(old(ls.At()), old(ls.nline)), r, ls.buf, ls.At(), sem, sem')
  {
    ghost var src, j := ls.stream.src, ls.At();
    var c := ls.cur;
    if c == Nul {
      r, sem' := Ok(Eof), sem;
    } else if c == OpenParen {
      ls.Next();
      r, sem' := Ok(ParBeg), sem;
    } else if c == CloseParen {
      ls.Next();
      r, sem' := Ok(ParEnd), sem;
    } else if IsQuote(c) {
      var closed;
      closed, sem' := ReadString(ls, c, sem);
      r := if closed then Ok(String) else Err(UnterminatedString(c, ls.nline));
      SavedIntoEmpty(src, j, ls.At());
    } else if IsDigit(c) {
      sem' := ReadNumeric(ls, sem);
      r := Ok(Number);
      SavedIntoEmpty(src, j, ls.At());
    } else if c == Colon {
      sem' := ReadKeyword(ls, sem);
      r := Ok(Keyword);
      SavedIntoEmpty(src, j + 1, ls.At());
    } else if IsAlnum(c) {
      sem' := ReadSymbol(ls, sem);
      r := Ok(Symbol);
      SavedIntoEmpty(src, j, ls.At());
    } else {
      r, sem' := Ok(Invalid), sem;
    }
  }

  /**
   * Produces the next token: skips separators, then classifies the byte it
   * stopped at. Result, buffer, lookahead and line counter are exactly
   * those of the reference step NextToken.
   */
  method GetToken(ls: LexState, sem: SemInfo) returns (r: Result<TokenType, LexError>, sem': SemInfo)
    requires ls.Valid()
    modifies ls`cur, ls`nline, ls`buf, ls.stream`pos
    ensures ls.Valid()
    ensures var s := NextToken(ls.stream.src, old(ls.At()), old(ls.nline));
      && r == s.result && ls.buf == s.buf && ls.At() == s.next && ls.nline == s.nline
      && sem' == SemAfter(sem, s)
  {
    ls.ResetBuf();
    SkipSeparators(ls);
    ghost var p := Position(ls.At(), ls.nline);
    ghost var src := ls.stream.src;
    r, sem' := ScanToken(ls, sem);
    ScannedIsScan(src, p, r, ls.buf, ls.At(), sem, sem');
  }
}
