/** The parser's token buffer: lookahead that never loses, repeats or reorders a token. */
module TokenBuffer {
  import opened Common
  import opened Tokens
  import opened Lexer
  import opened ConstantGrammar

  lemma ContinuesFurther(a: seq<PtxToken>, n: nat, b: seq<PtxToken>, m: nat, c: seq<PtxToken>)
    requires Continues(a, n, b) && Continues(b, m, c)
    ensures Continues(a, n + m, c) && TokenAt(b, 0) == TokenAt(a, n)
  {
    hide TokenAt;
    assert TokenAt(b, 0) == TokenAt(a, n + 0);
    forall i: nat ensures TokenAt(c, i) == TokenAt(a, n + m + i) {
      assert TokenAt(c, i) == TokenAt(b, m + i) == TokenAt(a, n + (m + i));
    }
  }

  /** The buffer holds the first tokens of the stream. */
  ghost predicate Prefix(buffer: seq<PtxToken>, stream: seq<PtxToken>) {
    forall i :: 0 <= i < |buffer| ==> buffer[i] == TokenAt(stream, i)
  }

  class PtxCstParser {
    const lexer: PtxLexer
    var tokens: seq<PtxToken>
    var peeked: Option<nat>
    var bufferedNext: Option<nat>
    /**
     * All tokens of the source, in order. The parser has no such field: it is here so that contracts can speak of the tokens
     * to come, and so that the abstract item productions have something to decide on.
     */
    const stream: seq<PtxToken>

    /** The number of tokens consumed, which is the id of the current token. */
    ghost function Position(): nat
      reads this
    {
      if peeked.Some? then peeked.value else if bufferedNext.Some? then bufferedNext.value else |tokens|
    }

    /** The buffer and the lexer together hold the whole stream. */
    ghost predicate Buffered()
      reads this`tokens, lexer
    {
      && lexer.Valid() && NoEndPieces(lexer.raw)
      && stream == LexFrom(lexer.raw, 0, [])
      && Prefix(tokens, stream)
      && Continues(stream, |tokens|, lexer.Upcoming())
    }

    ghost predicate Valid()
      reads this, lexer
    {
      && Buffered()
      && (bufferedNext.Some? ==> bufferedNext.value == |tokens| - 1)
      && (peeked.Some? ==> peeked.value == (if bufferedNext.Some? then |tokens| - 2 else |tokens| - 1))
    }

    constructor (raw: seq<RawPiece>)
      requires NoEndPieces(raw)
      ensures Valid() && fresh(lexer) && lexer.raw == raw && Position() == 0 && stream == LexFrom(raw, 0, [])
      ensures tokens == []
    {
      lexer := new PtxLexer(raw);
      tokens, peeked, bufferedNext := [], None, None;
      stream := LexFrom(raw, 0, []);
    }

    /** Lex one more token into the buffer. */
    method Fill() returns (id: nat)
      requires Buffered()
      modifies this`tokens, lexer
      ensures Buffered() && id == |tokens| - 1 == old(|tokens|)
    {
      hide Continues, LexFrom, TokenAt;
      ghost var before := lexer.Upcoming();
      id := |tokens|;
      var token := lexer.Consume();
      ContinuesFurther(stream, id, before, 1, lexer.Upcoming());
      tokens := tokens + [token];
    }

    /** The current token's id, without consuming it. */
    method Peek() returns (id: nat)
      requires Valid()
      modifies this, lexer
      ensures Valid() && id == Position() == old(Position()) && id < |tokens| && peeked == Some(id)
      ensures bufferedNext.Some? ==> old(bufferedNext).Some?
      ensures |tokens| >= old(|tokens|)
    {
      hide Buffered;
      if peeked.None? {
        if bufferedNext.Some? {
          peeked := bufferedNext;
          bufferedNext := None;
        } else {
          var filled := Fill();
          peeked := Some(filled);
        }
      }
      return peeked.value;
    }

    /** The id after the current token's, retained without consuming either. */
    method PeekNext() returns (id: nat)
      requires Valid()
      modifies this, lexer
      ensures Valid() && Position() == old(Position()) && id == Position() + 1 && id < |tokens|
      ensures |tokens| >= old(|tokens|)
    {
      hide Buffered;
      var _ := Peek();
      if bufferedNext.None? {
        var filled := Fill();
        bufferedNext := Some(filled);
      }
      return bufferedNext.value;
    }

    /** Consume the current token; ids come out as 0, 1, 2, ... whatever lookahead happened before. */
    method Consume() returns (id: nat)
      requires Valid()
      modifies this, lexer
      ensures Valid() && id == old(Position()) && Position() == id + 1 && id < |tokens|
      ensures |tokens| >= old(|tokens|)
    {
      id := Peek();
      peeked := None;
    }

    /** The token with an id already in the buffer. */
    function Token(id: nat): PtxToken
      requires id < |tokens|
      reads this`tokens
    {
      tokens[id]
    }

    /** Consumed and looked-ahead tokens are the stream's. */
    lemma Buffers(id: nat)
      requires Valid() && (id < Position() || id < |tokens|)
      ensures id < |tokens| && Token(id) == TokenAt(stream, id)
    {
      hide Continues, LexFrom, TokenAt;
    }

    method PeekToken() returns (token: PtxToken)
      requires Valid()
      modifies this, lexer
      ensures Valid() && Position() == old(Position()) && token == TokenAt(stream, Position())
      ensures |tokens| >= old(|tokens|) && Position() < |tokens|
    {
      var id := Peek();
      token := Token(id);
    }

    method PeekKind() returns (kind: TokenKind)
      requires Valid()
      modifies this, lexer
      ensures Valid() && Position() == old(Position()) && kind == TokenAt(stream, Position()).kind
      ensures |tokens| >= old(|tokens|) && Position() < |tokens|
    {
      var id := Peek();
      kind := Token(id).kind;
    }

    /** Equals `Expect` at the current token, which moves only if it is of the kind. */
    method Take(kind: TokenKind) returns (r: Parse<nat>)
      requires Valid()
      modifies this, lexer
      ensures Valid() && r == Expect(stream, old(Position()), kind) && Position() == r.pos
      ensures |tokens| >= old(|tokens|)
    {
      var id := Peek();
      if Token(id).kind == kind {
        var _ := Consume();
        return Parsed(id, id + 1);
      }
      return Failed(Expected(id, kind), id);
    }
  }
}
