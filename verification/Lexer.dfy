/** Trivia attachment over an abstract scanner, and the losslessness of the token stream it produces. */
module Lexer {
  import opened Tokens

  /** One piece recognized by the scanner; the end of input is not a piece. */
  datatype RawPiece = RawPiece(kind: TokenKind, text: string)

  predicate NoEndPieces(raw: seq<RawPiece>) {
    forall i :: 0 <= i < |raw| ==> !raw[i].kind.Eof?
  }

  /** The tokens of the pieces from `cursor` on: trivia collects on the next token, the rest of it on the end token. */
  function LexFrom(raw: seq<RawPiece>, cursor: nat, trivia: seq<Trivia>): (toks: seq<PtxToken>)
    ensures |toks| > 0
    decreases |raw| - cursor
  {
    if cursor >= |raw| then [PtxToken(Eof, "", trivia)]
    else if IsTrivia(raw[cursor].kind) then LexFrom(raw, cursor + 1, trivia + [Trivia(raw[cursor].kind, raw[cursor].text)])
    else [PtxToken(raw[cursor].kind, raw[cursor].text, trivia)] + LexFrom(raw, cursor + 1, [])
  }

  /** Two token streams that agree for ever, `later` from the `skip`th token of `earlier` on. */
  ghost predicate Continues(earlier: seq<PtxToken>, skip: nat, later: seq<PtxToken>) {
    forall i: nat :: TokenAt(later, i) == TokenAt(earlier, skip + i)
  }

  class PtxLexer {
    const raw: seq<RawPiece>
    var cursor: nat
    var hasPeek: bool
    var peekToken: PtxToken

    /** The tokens that will be consumed from now on. */
    ghost function Upcoming(): (toks: seq<PtxToken>)
      reads this
      ensures |toks| > 0
    {
      if hasPeek then [peekToken] + (if peekToken.kind.Eof? then [EMPTY_EOF] else LexFrom(raw, cursor, []))
      else LexFrom(raw, cursor, [])
    }

    ghost predicate Valid()
      reads this
    {
      hasPeek && peekToken.kind.Eof? ==> cursor >= |raw|
    }

    constructor (raw: seq<RawPiece>)
      ensures Valid() && this.raw == raw && Upcoming() == LexFrom(raw, 0, [])
    {
      this.raw := raw;
      cursor, hasPeek, peekToken := 0, false, EMPTY_EOF;
    }

    /** Read the next non-trivia token, collecting the trivia before it; independent of the lookahead cache. */
    method Next() returns (token: PtxToken)
      modifies this`cursor
      ensures token == LexFrom(raw, old(cursor), [])[0]
      ensures NoEndPieces(raw) && token.kind.Eof? ==> cursor >= |raw|
      ensures NoEndPieces(raw) ==>
        LexFrom(raw, old(cursor), []) == [token] + (if token.kind.Eof? then [] else LexFrom(raw, cursor, []))
    {
      var leadingTrivia := [];
      while cursor < |raw| && IsTrivia(raw[cursor].kind)
        invariant LexFrom(raw, cursor, leadingTrivia) == LexFrom(raw, old(cursor), [])
        decreases |raw| - cursor
      {
        leadingTrivia := leadingTrivia + [Trivia(raw[cursor].kind, raw[cursor].text)];
        cursor := cursor + 1;
      }
      if cursor < |raw| {
        token := PtxToken(raw[cursor].kind, raw[cursor].text, leadingTrivia);
        cursor := cursor + 1;
      } else {
        token := PtxToken(Eof, "", leadingTrivia);
      }
    }

    method Peek() returns (token: PtxToken)
      requires Valid() && NoEndPieces(raw)
      modifies this
      ensures Valid() && token == TokenAt(Upcoming(), 0) && Continues(old(Upcoming()), 0, Upcoming())
    {
      if !hasPeek {
        peekToken := Next();
        hasPeek := true;
      }
      return peekToken;
    }

    method Consume() returns (token: PtxToken)
      requires Valid() && NoEndPieces(raw)
      modifies this
      ensures Valid() && token == TokenAt(old(Upcoming()), 0) && Continues(old(Upcoming()), 1, Upcoming())
    {
      if hasPeek {
        hasPeek := false;
        EndedStream(raw, cursor);
        return peekToken;
      }
      token := Next();
      EndedStream(raw, cursor);
    }
  }

  lemma EndedStream(raw: seq<RawPiece>, cursor: nat)
    ensures cursor >= |raw| ==> LexFrom(raw, cursor, []) == [EMPTY_EOF]
  {
  }

  // ---- losslessness -----------------------------------------------------------------------------

  function TriviaText(trivia: seq<Trivia>): string {
    if trivia == [] then "" else TriviaText(trivia[..|trivia| - 1]) + trivia[|trivia| - 1].text
  }

  /** The spelling of a token together with the trivia before it. */
  function TokenText(t: PtxToken): string {
    TriviaText(t.leadingTrivia) + t.text
  }

  function TokensText(toks: seq<PtxToken>): string {
    if toks == [] then "" else TokensText(toks[..|toks| - 1]) + TokenText(toks[|toks| - 1])
  }

  function RawText(raw: seq<RawPiece>, cursor: nat): string
    decreases |raw| - cursor
  {
    if cursor >= |raw| then "" else raw[cursor].text + RawText(raw, cursor + 1)
  }

  /** The text of a token buffer, each token's trivia before its spelling. */
  method SourceText(tokens: seq<PtxToken>) returns (result: string)
    ensures result == TokensText(tokens)
  {
    result := "";
    for i := 0 to |tokens|
      invariant result == TokensText(tokens[..i])
    {
      var trivia := tokens[i].leadingTrivia;
      for j := 0 to |trivia|
        invariant result == TokensText(tokens[..i]) + TriviaText(trivia[..j])
      {
        assert trivia[..j + 1][..j] == trivia[..j];
        result := result + trivia[j].text;
      }
      assert trivia[..|trivia|] == trivia && tokens[..i + 1][..i] == tokens[..i];
      result := result + tokens[i].text;
    }
    assert tokens[..|tokens|] == tokens;
  }

  lemma {:induction false} TextAppend(a: seq<PtxToken>, b: seq<PtxToken>)
    ensures TokensText(a + b) == TokensText(a) + TokensText(b)
  {
    if b == [] {
      assert a + b == a;
    } else {
      assert (a + b)[..|a + b| - 1] == a + b[..|b| - 1];
      TextAppend(a, b[..|b| - 1]);
    }
  }

  lemma Regroup(a: string, b: string, c: string)
    ensures (a + b) + c == a + (b + c)
  {
  }

  lemma TriviaAppend(trivia: seq<Trivia>, t: Trivia)
    ensures TriviaText(trivia + [t]) == TriviaText(trivia) + t.text
  {
    assert (trivia + [t])[..|trivia|] == trivia;
  }

  lemma TokenAlone(t: PtxToken)
    ensures TokensText([t]) == TriviaText(t.leadingTrivia) + t.text
  {
    assert [t][..0] == [] && TokensText([]) == "";
    assert "" + TokenText(t) == TokenText(t);
  }

  /** Lexing keeps every character: pieces that partition the source reassemble from the tokens. */
  lemma {:induction false} LexingIsLossless(raw: seq<RawPiece>, cursor: nat, trivia: seq<Trivia>)
    ensures TokensText(LexFrom(raw, cursor, trivia)) == TriviaText(trivia) + RawText(raw, cursor)
    decreases |raw| - cursor
  {
    hide TokensText, TriviaText;
    if cursor >= |raw| {
      TokenAlone(PtxToken(Eof, "", trivia));
    } else if IsTrivia(raw[cursor].kind) {
      var t := Trivia(raw[cursor].kind, raw[cursor].text);
      TriviaAppend(trivia, t);
      LexingIsLossless(raw, cursor + 1, trivia + [t]);
      Regroup(TriviaText(trivia), t.text, RawText(raw, cursor + 1));
    } else {
      var token := PtxToken(raw[cursor].kind, raw[cursor].text, trivia);
      LexingIsLossless(raw, cursor + 1, []);
      TextAppend([token], LexFrom(raw, cursor + 1, []));
      TokenAlone(token);
      NoTriviaText();
      Regroup(TriviaText(trivia), token.text, RawText(raw, cursor + 1));
    }
  }

  lemma NoTriviaText()
    ensures TriviaText([]) == "" && forall s: string :: "" + s == s
  {
  }

  function TriviaPieces(trivia: seq<Trivia>): (r: seq<RawPiece>)
    ensures |r| == |trivia|
  {
    seq(|trivia|, i requires 0 <= i < |trivia| => RawPiece(trivia[i].kind, trivia[i].text))
  }

  /** Token by token, the pieces of its trivia and then its own. */
  function Pieces(toks: seq<PtxToken>): seq<RawPiece> {
    if toks == [] then []
    else TriviaPieces(toks[0].leadingTrivia) + [RawPiece(toks[0].kind, toks[0].text)] + Pieces(toks[1..])
  }

  /** Lexing keeps every piece, kind and text, in its place, and adds only the end. */
  lemma {:induction false} PiecesKept(raw: seq<RawPiece>, cursor: nat, trivia: seq<Trivia>)
    requires cursor <= |raw|
    ensures Pieces(LexFrom(raw, cursor, trivia)) == TriviaPieces(trivia) + raw[cursor..] + [RawPiece(Eof, "")]
    decreases |raw| - cursor
  {
    var toks := LexFrom(raw, cursor, trivia);
    if cursor == |raw| {
      assert raw[cursor..] == [] && toks[1..] == [];
    } else {
      assert raw[cursor..] == [raw[cursor]] + raw[cursor + 1..];
      if IsTrivia(raw[cursor].kind) {
        var t := Trivia(raw[cursor].kind, raw[cursor].text);
        PiecesKept(raw, cursor + 1, trivia + [t]);
        assert TriviaPieces(trivia + [t]) == TriviaPieces(trivia) + [raw[cursor]];
      } else {
        PiecesKept(raw, cursor + 1, []);
        assert toks[1..] == LexFrom(raw, cursor + 1, []);
        assert TriviaPieces([]) == [];
      }
    }
  }

  /** Only white space and comments are kept as trivia, and no token is one of them. */
  ghost predicate Apart(t: PtxToken) {
    && !t.kind.Whitespace? && !t.kind.LineComment? && !t.kind.BlockComment?
    && AllTrivia(t.leadingTrivia)
  }

  ghost predicate AllTrivia(trivia: seq<Trivia>) {
    forall i :: 0 <= i < |trivia| ==> trivia[i].kind.Whitespace? || trivia[i].kind.LineComment? || trivia[i].kind.BlockComment?
  }

  lemma {:induction false} TriviaApart(raw: seq<RawPiece>, cursor: nat, trivia: seq<Trivia>)
    requires AllTrivia(trivia)
    ensures forall i :: 0 <= i < |LexFrom(raw, cursor, trivia)| ==> Apart(LexFrom(raw, cursor, trivia)[i])
    decreases |raw| - cursor
  {
    if cursor < |raw| {
      if IsTrivia(raw[cursor].kind) {
        TriviaApart(raw, cursor + 1, trivia + [Trivia(raw[cursor].kind, raw[cursor].text)]);
      } else {
        TriviaApart(raw, cursor + 1, []);
      }
    }
  }

  /** The end token is the last one and the only one. */
  lemma {:induction false} EndIsLast(raw: seq<RawPiece>, cursor: nat, trivia: seq<Trivia>)
    requires NoEndPieces(raw)
    ensures forall i :: 0 <= i < |LexFrom(raw, cursor, trivia)| ==>
      (LexFrom(raw, cursor, trivia)[i].kind.Eof? <==> i == |LexFrom(raw, cursor, trivia)| - 1)
    decreases |raw| - cursor
  {
    if cursor < |raw| {
      if IsTrivia(raw[cursor].kind) {
        EndIsLast(raw, cursor + 1, trivia + [Trivia(raw[cursor].kind, raw[cursor].text)]);
      } else {
        var rest := LexFrom(raw, cursor + 1, []);
        EndIsLast(raw, cursor + 1, []);
        assert LexFrom(raw, cursor, trivia) == [PtxToken(raw[cursor].kind, raw[cursor].text, trivia)] + rest;
        assert forall i :: 0 <= i < |rest| ==> LexFrom(raw, cursor, trivia)[i + 1] == rest[i];
      }
    }
  }

  /** A buffer that reaches the end token has the whole source's text, however many end tokens follow. */
  lemma {:induction false} BufferText(stream: seq<PtxToken>, buffer: seq<PtxToken>)
    requires |buffer| >= |stream| && forall i :: 0 <= i < |buffer| ==> buffer[i] == TokenAt(stream, i)
    ensures TokensText(buffer) == TokensText(stream)
  {
    if |buffer| == |stream| {
      assert buffer == stream;
    } else {
      BufferText(stream, buffer[..|buffer| - 1]);
      assert buffer[|buffer| - 1] == EMPTY_EOF;
    }
  }
}
