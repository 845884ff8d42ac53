/**
 * The token loop of the program's entry point: prime a lexer on the loaded
 * buffer and call GetToken, each time with a fresh semantic value, until the
 * end-of-input token has been collected.
 */
module Driver {
  import opened CharClass
  import opened Scanner
  import opened Lexer

  /** How the token loop ends, with the tokens collected so far. */
  datatype Outcome =
    | Finished(tokens: seq<Token>)                 // the last token is Eof
    | Stuck(tokens: seq<Token>)                    // the last token is Invalid, which would repeat forever
    | Failed(tokens: seq<Token>, error: LexError)  // a string literal ran into the terminator

  function WithPrefix(ts: seq<Token>, o: Outcome): Outcome {
    o.(tokens := ts + o.tokens)
  }

  /** The token a call of GetToken yields, from a fresh semantic value. */
  function TokenOf(s: Step): Token
    requires s.result.Ok?
  {
    Token(s.result.value, SemAfter(EmptySem, s))
  }

  /**
   * Reference definition of the token loop from lookahead index `i`: every
   * token up to and including the first Eof, cut short at the first Invalid
   * token or lexical error. Only the last token of a finished or stuck
   * sequence is Eof or Invalid.
   */
  function Tokenize(src: seq<Byte>, i: nat, nline: int): (o: Outcome)
    requires Terminated(src) && i < |src|
    ensures o.Finished? ==> |o.tokens| > 0 && o.tokens[|o.tokens| - 1].kind == Eof
    ensures o.Stuck? ==> |o.tokens| > 0 && o.tokens[|o.tokens| - 1].kind == Invalid
    ensures forall k :: 0 <= k < |o.tokens| && (o.Failed? || k < |o.tokens| - 1) ==>
              o.tokens[k].kind != Eof && o.tokens[k].kind != Invalid
    decreases |src| - i
  {
    var s := NextToken(src, i, nline);
    match s.result
    case Err(e) => Failed([], e)
    case Ok(kind) =>
      if kind == Eof then Finished([TokenOf(s)])
      else if kind == Invalid then Stuck([TokenOf(s)])
      else WithPrefix([TokenOf(s)], Tokenize(src, s.next, s.nline))
  }

  /** One more token in front: the prefix grows by it. */
  lemma WithPrefixAppend(ts: seq<Token>, t: Token, o: Outcome)
    ensures WithPrefix(ts, WithPrefix([t], o)) == WithPrefix(ts + [t], o)
  {
    assert ts + ([t] + o.tokens) == ts + [t] + o.tokens;
  }

  /** A token other than Eof and Invalid is followed by the tokens from the next lookahead. */
  lemma TokenizeMore(src: seq<Byte>, i: nat, nline: int)
    requires Terminated(src) && i < |src|
    requires var s := NextToken(src, i, nline); s.result.Ok? && s.result.value != Eof && s.result.value != Invalid
    ensures var s := NextToken(src, i, nline);
      s.next < |src| && Tokenize(src, i, nline) == WithPrefix([TokenOf(s)], Tokenize(src, s.next, s.nline))
  {
  }

  /**
   * The loop of main over a primed lexer. It stops after the first Invalid
   * token instead of collecting it forever, and at a lexical error.
   */
  method ReadTokens(ls: LexState) returns (o: Outcome)
    requires ls.Valid()
    modifies ls`cur, ls`nline, ls`buf, ls.stream`pos
    ensures ls.Valid()
    ensures o == Tokenize(ls.stream.src, old(ls.At()), old(ls.nline))
  {
    ghost var src, a0, n0 := ls.stream.src, ls.At(), ls.nline;
    var tokens: seq<Token> := [];
    var done := false;
    o := Finished([]);
    while !done
      invariant ls.Valid()
      invariant !done ==> WithPrefix(tokens, Tokenize(src, ls.At(), ls.nline)) == Tokenize(src, a0, n0)
      invariant done ==> o == Tokenize(src, a0, n0)
      decreases !done, ls.stream.size + 1 - ls.stream.pos
    {
      ghost var at, n := ls.At(), ls.nline;
      ghost var s := NextToken(src, at, n);
      var r, sem := GetToken(ls, EmptySem);
      match r
      case Err(e) =>
        assert tokens + [] == tokens;
        o, done := Failed(tokens, e), true;
      case Ok(kind) =>
        assert TokenOf(s) == Token(kind, sem);
        var rest := tokens + [Token(kind, sem)];
        if kind == Eof || kind == Invalid {
          o, done := if kind == Eof then Finished(rest) else Stuck(rest), true;
        } else {
          TokenizeMore(src, at, n);
          WithPrefixAppend(tokens, Token(kind, sem), Tokenize(src, ls.At(), ls.nline));
        }
        tokens := rest;
    }
  }

  /** The whole program's scan of a loaded buffer of `nsrc` bytes. */
  method Lex(src: seq<Byte>, nsrc: nat) returns (o: Outcome)
    requires |src| == nsrc + 1 && src[nsrc] == Nul
    ensures o == Tokenize(src, 0, 1)
  {
    var ls := new LexState.Init(src, nsrc);
    o := ReadTokens(ls);
  }

  /**
   * Every byte from `i` up to the terminator is a blank, a newline or comment
   * text. The trigger keeps the witness of a comment from firing it again.
   */
  predicate BlanksAndComments(src: seq<Byte>, i: nat) {
    forall k {:trigger IsBlank(src[k])} :: i <= k < |src| - 1 ==> IsBlank(src[k]) || IsNewline(src[k]) || CommentText(src, i, k)
  }

  /** Past a blank or a newline, the rest is still blanks, newlines and comments. */
  lemma BlanksAndCommentsAfterBlank(src: seq<Byte>, i: nat)
    requires Terminated(src) && i < |src| - 1 && BlanksAndComments(src, i)
    requires IsBlank(src[i]) || IsNewline(src[i])
    ensures BlanksAndComments(src, i + 1)
  {
    forall k | i + 1 <= k < |src| - 1
      ensures IsBlank(src[k]) || IsNewline(src[k]) || CommentText(src, i + 1, k)
    {
      if !(IsBlank(src[k]) || IsNewline(src[k])) {
        var j :| i <= j <= k && src[j] == Semicolon && NoNewline(src, j, k);
        assert i + 1 <= j;
      }
    }
  }

  /** Past a comment that a newline ends, the rest is still blanks, newlines and comments. */
  lemma BlanksAndCommentsAfterComment(src: seq<Byte>, i: nat, e: nat)
    requires Terminated(src) && i < e < |src| - 1 && BlanksAndComments(src, i)
    requires IsNewline(src[e])
    ensures BlanksAndComments(src, e)
  {
    forall k | e <= k < |src| - 1
      ensures IsBlank(src[k]) || IsNewline(src[k]) || CommentText(src, e, k)
    {
      if !(IsBlank(src[k]) || IsNewline(src[k])) {
        var j :| i <= j <= k && src[j] == Semicolon && NoNewline(src, j, k);
        assert e <= j;
      }
    }
  }

  /** Over blanks, newlines and comments, the separator phase stops only on a zero byte. */
  lemma {:induction false} SkipToNul(src: seq<Byte>, i: nat, nline: int)
    requires Terminated(src) && i < |src| && BlanksAndComments(src, i)
    ensures src[Skip(src, i, nline).at] == Nul
    decreases |src| - i
  {
    var c := src[i];
    if c == Nul {
    } else if IsNewline(c) || IsBlank(c) {
      BlanksAndCommentsAfterBlank(src, i);
      SkipToNul(src, i + 1, if IsNewline(c) then nline + 1 else nline);
    } else if c == Semicolon {
      var e := RunEnd(src, i, CommentBody);
      if src[e] != Nul {
        BlanksAndCommentsAfterComment(src, i, e);
        SkipToNul(src, e, nline);
      }
    } else {
      assert false;
    }
  }

  /** Input made only of blanks, newlines and `;` comments yields the end-of-input token alone. */
  lemma BlankInputIsEof(src: seq<Byte>, i: nat, nline: int)
    requires Terminated(src) && i < |src| && BlanksAndComments(src, i)
    ensures Tokenize(src, i, nline) == Finished([Token(Eof, EmptySem)])
  {
    SkipToNul(src, i, nline);
  }

  /** The parenthesis token of each byte of a run of parentheses. */
  function ParenTokens(s: seq<Byte>): (ts: seq<Token>)
    ensures |ts| == |s|
  {
    if s == [] then []
    else [Token(if s[0] == OpenParen then ParBeg else ParEnd, EmptySem)] + ParenTokens(s[1..])
  }

  /** A parenthesis at the lookahead is its own token, followed by the tokens after it. */
  lemma ParenStep(src: seq<Byte>, i: nat, nline: int)
    requires Terminated(src) && i < |src| && (src[i] == OpenParen || src[i] == CloseParen)
    ensures i + 1 < |src|
    ensures Tokenize(src, i, nline) ==
      WithPrefix([Token(if src[i] == OpenParen then ParBeg else ParEnd, EmptySem)], Tokenize(src, i + 1, nline))
  {
    assert NextToken(src, i, nline) == Step(Ok(if src[i] == OpenParen then ParBeg else ParEnd), [], [], i + 1, nline) by {
      assert Skip(src, i, nline) == Position(i, nline);
    }
    TokenizeMore(src, i, nline);
  }

  /** The tokens of a run of parentheses: the first byte's token, then the rest's. */
  lemma ParenTokensFront(src: seq<Byte>, i: nat, j: nat)
    requires i < j <= |src|
    ensures ParenTokens(src[i..j]) == [Token(if src[i] == OpenParen then ParBeg else ParEnd, EmptySem)] + ParenTokens(src[i + 1..j])
  {
    assert src[i..j][1..] == src[i + 1..j];
  }

  /**
   * Parentheses need no separators: input made only of them yields one
   * token per byte, then the end-of-input token.
   */
  lemma {:induction false} ParensOnly(src: seq<Byte>, i: nat, nline: int)
    requires Terminated(src) && i < |src|
    requires forall k :: i <= k < |src| - 1 ==> src[k] == OpenParen || src[k] == CloseParen
    ensures Tokenize(src, i, nline) == Finished(ParenTokens(src[i..|src| - 1]) + [Token(Eof, EmptySem)])
    decreases |src| - i
  {
    var end, eof := |src| - 1, Token(Eof, EmptySem);
    if i < end {
      var t := Token(if src[i] == OpenParen then ParBeg else ParEnd, EmptySem);
      var rest := ParenTokens(src[i + 1..end]);
      ParensOnly(src, i + 1, nline);
      ParenStep(src, i, nline);
      ParenTokensFront(src, i, end);
      assert [t] + (rest + [eof]) == ([t] + rest) + [eof];
    } else {
      assert Skip(src, i, nline) == Position(i, nline);
      assert src[i..end] == [];
    }
  }
}
