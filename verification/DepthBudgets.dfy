/** What a smaller height budget changes: it turns a parse into a depth refusal, or changes nothing. */
module DepthBudgets {
  import opened Tokens
  import opened ConstantGrammar
  import opened InitializerGrammar

  /** The tighter parse is refused for its depth, or is the looser one. */
  predicate Tighter<T(==)>(tight: Parse<T>, loose: Parse<T>) {
    tight == loose || (tight.Failed? && tight.diagnostic.DepthLimit?)
  }

  lemma {:induction false} TighterExpression(toks: seq<PtxToken>, pos: nat, p: nat, b: nat, c: nat)
    requires b <= c
    ensures Tighter(ParseExpression(toks, pos, p, b), ParseExpression(toks, pos, p, c))
    decreases b, 4, Remaining(toks, pos)
  {
    hide ParseUnary, BinaryTail;
    if b > 0 {
      TighterUnary(toks, pos, b, c);
      var r := ParseUnary(toks, pos, b);
      if r.Parsed? {
        TighterBinaryTail(toks, r.value, r.pos, p, b, c);
      }
    }
  }

  lemma {:induction false} TighterUnary(toks: seq<PtxToken>, pos: nat, b: nat, c: nat)
    requires b <= c
    ensures Tighter(ParseUnary(toks, pos, b), ParseUnary(toks, pos, c))
    decreases b, 3, Remaining(toks, pos)
  {
    hide ParsePrimary;
    if b > 0 {
      if !IsConstantUnaryOperator(TokenAt(toks, pos).kind) {
        TighterPrimary(toks, pos, b, c);
      } else if b > 1 {
        TighterUnary(toks, pos + 1, b - 1, c - 1);
      }
    }
  }

  lemma {:induction false} TighterPrimary(toks: seq<PtxToken>, pos: nat, b: nat, c: nat)
    requires b <= c
    ensures Tighter(ParsePrimary(toks, pos, b), ParsePrimary(toks, pos, c))
    decreases b, 2, Remaining(toks, pos)
  {
    hide ParseExpression, ParseCast, CallTail;
    var kind := TokenAt(toks, pos).kind;
    if b > 0 {
      if IsConstantLiteral(kind) {
        TighterCallTail(toks, ParsedConstantExpression(Literal(pos), pos, 1), pos + 1, b, c);
      } else if kind.Ident? {
        TighterCallTail(toks, ParsedConstantExpression(Symbol(pos), pos, 1), pos + 1, b, c);
      } else if kind.LParen? {
        if IsCastType(TokenAt(toks, pos + 1)) {
          TighterCast(toks, pos, b, c);
        } else if b > 1 {
          TighterExpression(toks, pos + 1, 0, b - 1, c - 1);
          var inner := ParseExpression(toks, pos + 1, 0, b - 1);
          if inner.Parsed? {
            TighterCallTail(toks, ParsedConstantExpression(Parenthesized(pos, inner.value.expression, inner.pos), pos,
                                                           inner.value.height + 1), inner.pos + 1, b, c);
          }
        }
      }
    }
  }

  lemma {:induction false} TighterCast(toks: seq<PtxToken>, pos: nat, b: nat, c: nat)
    requires 0 < b <= c
    ensures Tighter(ParseCast(toks, pos, b), ParseCast(toks, pos, c))
    decreases b, 1, Remaining(toks, pos)
  {
    hide ParseUnary;
    if b > 1 {
      TighterUnary(toks, pos + 3, b - 1, c - 1);
    }
  }

  lemma {:induction false} TighterCallTail(toks: seq<PtxToken>, callee: ParsedConstantExpression, pos: nat, b: nat, c: nat)
    requires 0 < b <= c
    ensures Tighter(CallTail(toks, callee, pos, b), CallTail(toks, callee, pos, c))
    decreases b, 0, Remaining(toks, pos)
  {
    hide ParseExpression;
    if TokenAt(toks, pos).kind.LParen? && callee.height < b {
      TighterExpression(toks, pos + 1, 0, b - 1, c - 1);
      var argument := ParseExpression(toks, pos + 1, 0, b - 1);
      if argument.Parsed? {
        var call := Call(callee.expression, pos, argument.value.expression, argument.pos);
        var height := Max(callee.height, argument.value.height) + 1;
        TighterCallTail(toks, ParsedConstantExpression(call, callee.first, height), argument.pos + 1, b, c);
      }
    }
  }

  lemma {:induction false} TighterBinaryTail(toks: seq<PtxToken>, left: ParsedConstantExpression, pos: nat, p: nat, b: nat,
                                             c: nat)
    requires 0 < b <= c
    ensures Tighter(BinaryTail(toks, left, pos, p, b), BinaryTail(toks, left, pos, p, c))
    decreases b, 1, Remaining(toks, pos)
  {
    hide ParseExpression, ConditionalTail, ConstantBinaryPrecedence, Max;
    var precedence := ConstantBinaryPrecedence(TokenAt(toks, pos).kind);
    if precedence < p {
      TighterConditionalTail(toks, left, pos, p, b, c);
    } else if left.height < b {
      TighterExpression(toks, pos + 1, precedence + 1, b - 1, c - 1);
      var right := ParseExpression(toks, pos + 1, precedence + 1, b - 1);
      if right.Parsed? {
        var operation := BinaryOperation(left.expression, pos, right.value.expression);
        var height := Max(left.height, right.value.height) + 1;
        TighterBinaryTail(toks, ParsedConstantExpression(operation, left.first, height), right.pos, p, b, c);
      }
    }
  }

  lemma {:induction false} TighterConditionalTail(toks: seq<PtxToken>, left: ParsedConstantExpression, pos: nat, p: nat,
                                                  b: nat, c: nat)
    requires 0 < b <= c
    ensures Tighter(ConditionalTail(toks, left, pos, p, b), ConditionalTail(toks, left, pos, p, c))
    decreases b, 0, 0
  {
    hide ParseExpression;
    if p == 0 && TokenAt(toks, pos).kind.Question? && left.height < b {
      TighterExpression(toks, pos + 1, 0, b - 1, c - 1);
      var whenTrue := ParseExpression(toks, pos + 1, 0, b - 1);
      if whenTrue.Parsed? && TokenAt(toks, whenTrue.pos).kind.Colon? {
        TighterExpression(toks, whenTrue.pos + 1, 0, b - 1, c - 1);
      }
    }
  }

  lemma {:induction false} TighterInitializer(toks: seq<PtxToken>, pos: nat, b: nat, c: nat)
    requires b <= c
    ensures Tighter(ParseInitializer(toks, pos, b), ParseInitializer(toks, pos, c))
    decreases b, 1, Remaining(toks, pos)
  {
    hide ParseExpression, ParseElements;
    if b > 0 {
      if IsIdentifierToken(TokenAt(toks, pos).kind) && TokenAt(toks, pos + 1).kind.Eq? {
        TighterExpression(toks, pos + 2, 0, b - 1, c - 1);
      } else if !TokenAt(toks, pos).kind.LBrace? {
        TighterExpression(toks, pos, 0, b, c);
      } else {
        TighterElements(toks, pos, pos + 1, b, c);
      }
    }
  }

  lemma {:induction false} TighterElements(toks: seq<PtxToken>, open: nat, pos: nat, b: nat, c: nat)
    requires 0 < b <= c
    ensures Tighter(ParseElements(toks, open, pos, b), ParseElements(toks, open, pos, c))
    decreases b, 0, Remaining(toks, pos)
  {
    hide ParseInitializer;
    if !TokenAt(toks, pos).kind.RBrace? && b > 1 {
      TighterInitializer(toks, pos, b - 1, c - 1);
      var e := ParseInitializer(toks, pos, b - 1);
      if e.Parsed? && TokenAt(toks, e.pos).kind.Comma? {
        TighterElements(toks, open, e.pos + 1, b, c);
      }
    }
  }
}
