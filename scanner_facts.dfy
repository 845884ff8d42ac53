/**
 * What the reference scanner promises about the tokens it produces, the
 * bytes it skips and the lines it counts.
 */
module ScannerFacts {
  import opened CharClass
  import opened Scanner

  /** Every byte of a run belongs to the run's class. */
  lemma {:induction false} RunEndSpan(src: seq<Byte>, i: nat, r: Run)
    requires Terminated(src) && i < |src|
    ensures forall k :: i <= k < RunEnd(src, i, r) ==> InRun(r, src[k])
    decreases |src| - i
  {
    if InRun(r, src[i]) {
      RunEndSpan(src, i + 1, r);
    }
  }

  /** No delimiter occurs between `i` and the closing index. */
  lemma {:induction false} CloseIndexFirst(src: seq<Byte>, i: nat, d: Byte)
    requires Terminated(src) && i < |src| && d != Nul
    ensures forall k :: i <= k < CloseIndex(src, i, d) ==> src[k] != d
    decreases |src| - i
  {
    if !(i == |src| - 1 || src[i] == d) {
      CloseIndexFirst(src, i + 1, d);
    }
  }

  lemma {:induction false} NewlinesAppend(a: seq<Byte>, b: seq<Byte>)
    ensures Newlines(a + b) == Newlines(a) + Newlines(b)
  {
    if a == [] {
      assert a + b == b;
    } else {
      assert (a + b)[1..] == a[1..] + b;
      NewlinesAppend(a[1..], b);
    }
  }

  lemma {:induction false} NewlinesNone(s: seq<Byte>)
    requires forall k :: 0 <= k < |s| ==> !IsNewline(s[k])
    ensures Newlines(s) == 0
  {
    if s != [] {
      NewlinesNone(s[1..]);
    }
  }

  /** A newline or blank followed by `rest` counts the lines of `rest` plus its own. */
  lemma NewlinesCons(src: seq<Byte>, i: nat, j: nat)
    requires i < j <= |src|
    ensures Newlines(src[i..j]) == (if IsNewline(src[i]) then 1 else 0) + Newlines(src[i + 1..j])
  {
    assert src[i..j][1..] == src[i + 1..j];
  }

  /**
   * The separator phase counts exactly the newline bytes it passes: each
   * `\n` and each `\r` is one line (so `\r\n` is two), and a comment
   * contains none.
   */
  lemma {:induction false} SkipCountsNewlines(src: seq<Byte>, i: nat, nline: int)
    requires Terminated(src) && i < |src|
    ensures var p := Skip(src, i, nline); p.nline == nline + Newlines(src[i..p.at])
    decreases |src| - i
  {
    var c, p := src[i], Skip(src, i, nline);
    if c == Nul {
      assert src[i..p.at] == [];
    } else if IsNewline(c) || IsBlank(c) {
      SkipCountsNewlines(src, i + 1, if IsNewline(c) then nline + 1 else nline);
      NewlinesCons(src, i, p.at);
    } else if c == Semicolon {
      var e := RunEnd(src, i, CommentBody);
      SkipCountsNewlines(src, e, nline);
      RunEndSpan(src, i, CommentBody);
      assert src[i..p.at] == src[i..e] + src[e..p.at];
      NewlinesAppend(src[i..e], src[e..p.at]);
      NewlinesNone(src[i..e]);
    } else {
      assert src[i..p.at] == [];
    }
  }

  /** Comment text after a `;` at or after `i'` is comment text after any earlier start `i`. */
  lemma CommentTextWiden(src: seq<Byte>, i: nat, i': nat, k: nat)
    requires i <= i' && k < |src| && CommentText(src, i', k)
    ensures CommentText(src, i, k)
  {
    var j :| i' <= j <= k && src[j] == Semicolon && NoNewline(src, j, k);
    assert i <= j;
  }

  /**
   * Everything the separator phase passes over is a blank, a newline, or
   * comment text: a byte that follows a `;` on its own line.
   */
  lemma {:induction false} SkipPassesSeparators(src: seq<Byte>, i: nat, nline: int)
    requires Terminated(src) && i < |src|
    ensures var p := Skip(src, i, nline);
      forall k :: i <= k < p.at ==> IsBlank(src[k]) || IsNewline(src[k]) || CommentText(src, i, k)
    decreases |src| - i
  {
    var c, p := src[i], Skip(src, i, nline);
    if c == Nul {
    } else if IsNewline(c) || IsBlank(c) {
      SkipPassesSeparators(src, i + 1, if IsNewline(c) then nline + 1 else nline);
      forall k | i + 1 <= k < p.at && !IsBlank(src[k]) && !IsNewline(src[k])
        ensures CommentText(src, i, k)
      {
        CommentTextWiden(src, i, i + 1, k);
      }
    } else if c == Semicolon {
      var e := RunEnd(src, i, CommentBody);
      SkipPassesSeparators(src, e, nline);
      RunEndSpan(src, i, CommentBody);
      forall k | i <= k < e
        ensures CommentText(src, i, k)
      {
        assert NoNewline(src, i, k);
      }
      forall k | e <= k < p.at && !IsBlank(src[k]) && !IsNewline(src[k])
        ensures CommentText(src, i, k)
      {
        CommentTextWiden(src, i, e, k);
      }
    }
  }

  /**
   * One call never moves the lookahead backwards nor past the terminator,
   * never decreases the line counter, and counts only the newlines that
   * precede the token: newlines inside a string are not lines.
   */
  lemma NextTokenBounds(src: seq<Byte>, i: nat, nline: int)
    requires Terminated(src) && i < |src|
    ensures var p, s := Skip(src, i, nline), NextToken(src, i, nline);
      && i <= p.at <= s.next < |src|
      && s.nline == nline + Newlines(src[i..p.at]) >= nline
  {
    SkipCountsNewlines(src, i, nline);
  }

  /**
   * End of input is the zero byte; once reached, every further call
   * returns the same end-of-input step.
   */
  lemma EofIdempotent(src: seq<Byte>, i: nat, nline: int)
    requires Terminated(src) && i < |src|
    ensures var p, s := Skip(src, i, nline), NextToken(src, i, nline);
      && (s.result == Ok(Eof) <==> src[p.at] == Nul)
      && (s.result == Ok(Eof) ==> s.next == p.at && s.buf == [] && NextToken(src, s.next, s.nline) == s)
  {
  }

  /**
   * A byte that starts no token and is no separator is reported as invalid
   * without being consumed, so every further call reports it again.
   */
  lemma InvalidIsStuck(src: seq<Byte>, i: nat, nline: int)
    requires Terminated(src) && i < |src|
    ensures var p, s := Skip(src, i, nline), NextToken(src, i, nline); var c := src[p.at];
      && (s.result == Ok(Invalid) <==>
            c != Nul && c != OpenParen && c != CloseParen && !IsQuote(c) && !IsAlnum(c) && c != Colon)
      && (s.result == Ok(Invalid) ==> s.next == p.at && s.buf == [] && NextToken(src, s.next, s.nline) == s)
  {
  }

  /** Each parenthesis is a token of its own that consumes exactly that byte. */
  lemma ParenToken(src: seq<Byte>, i: nat, nline: int)
    requires Terminated(src) && i < |src|
    ensures var p, s := Skip(src, i, nline), NextToken(src, i, nline);
      && (s.result == Ok(ParBeg) <==> src[p.at] == OpenParen)
      && (s.result == Ok(ParEnd) <==> src[p.at] == CloseParen)
      && (s.result == Ok(ParBeg) || s.result == Ok(ParEnd) ==> s.next == p.at + 1 && s.buf == [])
  {
  }

  /**
   * A string token starts at a quote that is closed before the terminator;
   * its buffer runs from the opening to the closing delimiter, its text is
   * that buffer without them and holds no delimiter, and the lookahead is
   * the byte after the closing delimiter.
   */
  lemma StringToken(src: seq<Byte>, i: nat, nline: int)
    requires Terminated(src) && i < |src|
    ensures var p, s := Skip(src, i, nline), NextToken(src, i, nline); var d := src[p.at];
      && (s.result == Ok(String) <==> IsQuote(d) && CloseIndex(src, p.at + 1, d) < |src| - 1)
      && (s.result == Ok(String) ==>
            && |s.buf| >= 2 && s.buf[0] == d && s.buf[|s.buf| - 1] == d
            && s.text == s.buf[1..|s.buf| - 1]
            && (forall k :: 0 <= k < |s.text| ==> s.text[k] != d)
            && s.buf == src[p.at..s.next] && src[s.next - 1] == d)
  {
    var p, s := Skip(src, i, nline), NextToken(src, i, nline);
    var d := src[p.at];
    if IsQuote(d) {
      var e := CloseIndex(src, p.at + 1, d);
      CloseIndexFirst(src, p.at + 1, d);
      if e < |src| - 1 {
        assert s == Step(Ok(String), src[p.at..e + 1], src[p.at + 1..e], e + 1, p.nline);
        assert src[p.at..e + 1][1..e - p.at] == src[p.at + 1..e];
      }
    }
  }

  /**
   * A quote that is never closed is an error that leaves the lookahead on
   * the terminator, having saved every byte up to it, none of them the
   * delimiter.
   */
  lemma UnterminatedStringError(src: seq<Byte>, i: nat, nline: int)
    requires Terminated(src) && i < |src|
    ensures var p, s := Skip(src, i, nline), NextToken(src, i, nline); var d := src[p.at];
      && (s.result.Err? <==> IsQuote(d) && CloseIndex(src, p.at + 1, d) == |src| - 1)
      && (s.result.Err? ==>
            && s.result.error == UnterminatedString(d, s.nline)
            && s.next == |src| - 1 && s.buf == src[p.at..s.next]
            && (forall k :: p.at < k < s.next ==> src[k] != d))
  {
    var p := Skip(src, i, nline);
    var d := src[p.at];
    if IsQuote(d) {
      CloseIndexFirst(src, p.at + 1, d);
    }
  }

  /** A number is the maximal run of digits and dots that starts at a digit. */
  lemma NumberToken(src: seq<Byte>, i: nat, nline: int)
    requires Terminated(src) && i < |src|
    ensures var p, s := Skip(src, i, nline), NextToken(src, i, nline);
      && (s.result == Ok(Number) <==> IsDigit(src[p.at]))
      && (s.result == Ok(Number) ==>
            && s.text == s.buf == src[p.at..s.next] && |s.text| > 0 && IsDigit(s.text[0])
            && (forall k :: 0 <= k < |s.text| ==> IsNumeric(s.text[k]))
            && !IsNumeric(src[s.next]))
  {
    var p := Skip(src, i, nline);
    if IsDigit(src[p.at]) {
      RunEndSpan(src, p.at, Numeric);
    }
  }

  /**
   * A keyword is a colon followed by the maximal run of alphanumerics, `_`
   * and `-`; the colon is not part of its text, which may be empty.
   */
  lemma KeywordToken(src: seq<Byte>, i: nat, nline: int)
    requires Terminated(src) && i < |src|
    ensures var p, s := Skip(src, i, nline), NextToken(src, i, nline);
      && (s.result == Ok(Keyword) <==> src[p.at] == Colon)
      && (s.result == Ok(Keyword) ==>
            && s.text == s.buf == src[p.at + 1..s.next]
            && (forall k :: 0 <= k < |s.text| ==> IsKeywordChar(s.text[k]))
            && !IsKeywordChar(src[s.next]))
  {
    var p := Skip(src, i, nline);
    if src[p.at] == Colon {
      var e := RunEnd(src, p.at + 1, KeywordBody);
      assert NextToken(src, i, nline) == Step(Ok(Keyword), src[p.at + 1..e], src[p.at + 1..e], e, p.nline);
      RunEndSpan(src, p.at + 1, KeywordBody);
    }
  }

  /**
   * A symbol starts at a letter (a digit starts a number) and is the
   * maximal run of alphanumerics after it: never empty, and `_`, `-` and
   * `.` end it.
   */
  lemma SymbolToken(src: seq<Byte>, i: nat, nline: int)
    requires Terminated(src) && i < |src|
    ensures var p, s := Skip(src, i, nline), NextToken(src, i, nline);
      && (s.result == Ok(Symbol) <==> IsAlpha(src[p.at]))
      && (s.result == Ok(Symbol) ==>
            && s.text == s.buf == src[p.at..s.next] && |s.text| > 0 && IsAlpha(s.text[0])
            && (forall k :: 0 <= k < |s.text| ==> IsAlnum(s.text[k]))
            && !IsAlnum(src[s.next]))
  {
    var p := Skip(src, i, nline);
    if IsAlpha(src[p.at]) {
      RunEndSpan(src, p.at, SymbolBody);
    }
  }

  /** `\r\n` at the end of input: two lines are counted before Eof. */
  lemma CrLfCountsTwoLines()
    ensures NextToken([13, 10, 0], 0, 1) == Step(Ok(Eof), [], [], 2, 3)
  {
  }

  /** `; x` then a newline and `(`: the comment and the newline are skipped, one line counted. */
  lemma CommentThenParen()
    ensures NextToken([59, 32, 120, 10, 40, 0], 0, 1) == Step(Ok(ParBeg), [], [], 5, 2)
  {
  }

  /** `'` newline `'`: the newline is part of the text and no line is counted. */
  lemma NewlineInString()
    ensures NextToken([39, 10, 39, 0], 0, 1) == Step(Ok(String), [39, 10, 39], [10], 3, 1)
  {
  }

  /** `"a` with no closing quote: an error on the terminator. */
  lemma UnclosedString()
    ensures NextToken([34, 97, 0], 0, 1) == Step(Err(UnterminatedString(34, 1)), [34, 97], [], 2, 1)
  {
  }

  /** `:)`: a keyword with empty text; the parenthesis is left for the next call. */
  lemma EmptyKeyword()
    ensures NextToken([58, 41, 0], 0, 1) == Step(Ok(Keyword), [], [], 1, 1)
  {
  }

  /** `a-b`: a hyphen ends a symbol, and a hyphen alone is invalid. */
  lemma HyphenEndsSymbol()
    ensures NextToken([97, 45, 98, 0], 0, 1) == Step(Ok(Symbol), [97], [97], 1, 1)
    ensures NextToken([97, 45, 98, 0], 1, 1) == Step(Ok(Invalid), [], [], 1, 1)
  {
  }

  /** `1.2.3x`: every digit and dot belongs to the number, which the letter ends. */
  lemma DotsInNumber()
    ensures NextToken([49, 46, 50, 46, 51, 120, 0], 0, 1).text == [49, 46, 50, 46, 51]
  {
  }

  datatype Option<T> = None | Some(value: T)

  /**
   * The closing index as ReadString's loop is written: the loop exits only
   * on the delimiter, so when none follows, it reads on past the
   * terminator (`None`).
   */
  function SourceCloseIndex(src: seq<Byte>, i: nat, d: Byte): (r: Option<nat>)
    requires i <= |src|
    ensures r.Some? ==> i <= r.value < |src| && src[r.value] == d
    ensures r.None? ==> forall k :: i <= k < |src| ==> src[k] != d
    decreases |src| - i
  {
    if i == |src| then None
    else if src[i] == d then Some(i)
    else SourceCloseIndex(src, i + 1, d)
  }

  /** `"a`: the source's string loop finds no delimiter within the buffer. */
  lemma UnclosedStringOverruns()
    ensures SourceCloseIndex([34, 97, 0], 1, 34) == None
  {
  }

  /**
   * The bounded loop of the model agrees with the source's loop whenever
   * the delimiter occurs, and stops on the terminator exactly when the
   * source's loop would overrun.
   */
  lemma {:induction false} CloseIndexAgrees(src: seq<Byte>, i: nat, d: Byte)
    requires Terminated(src) && i < |src| && d != Nul
    ensures SourceCloseIndex(src, i, d).Some? <==> CloseIndex(src, i, d) < |src| - 1
    ensures SourceCloseIndex(src, i, d).Some? ==> SourceCloseIndex(src, i, d).value == CloseIndex(src, i, d)
    decreases |src| - i
  {
    if i < |src| - 1 && src[i] != d {
      CloseIndexAgrees(src, i + 1, d);
    }
  }
}
