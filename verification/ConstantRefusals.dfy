/** Where a constant expression or an initializer is refused, and for what. */
module ConstantRefusals {
  import opened Tokens
  import opened ConstantGrammar
  import opened InitializerGrammar

  /** No operand begins with this kind: it is no literal, name, opening parenthesis or prefix operator. */
  predicate BeginsNoOperand(kind: TokenKind) {
    && !kind.Ident? && !kind.LParen? && !kind.Plus? && !kind.Minus? && !kind.Exclamation? && !kind.Tilde?
    && !kind.Decimal? && !kind.Hex? && !kind.Binary? && !kind.F32Hex? && !kind.F64Hex? && !kind.F64? && !kind.WarpSz?
  }

  /** The token at `at` would take the tree beyond its budget: a bracket or operator, or a cast with its type. */
  predicate TooDeep(toks: seq<PtxToken>, at: nat, consumed: nat) {
    || consumed == at + 1
    || (consumed == at + 3 && TokenAt(toks, at).kind.LParen? && TokenAt(toks, at + 1).kind.DotIdent?
        && TokenAt(toks, at + 2).kind.RParen?)
  }

  /**
   * A refusal lies where the parse stands: before a token that begins no operand, before one that is not the closing
   * parenthesis or colon that is due, or just after one that the budget does not allow.
   */
  predicate RefusedThere(toks: seq<PtxToken>, pos: nat, consumed: nat, d: Diagnostic) {
    match d
    case Malformed(at) => pos <= at == consumed && BeginsNoOperand(TokenAt(toks, at).kind)
    case Expected(at, kind) => pos < at == consumed && (kind.RParen? || kind.Colon?) && TokenAt(toks, at).kind != kind
    case DepthLimit(at) => pos <= at && TooDeep(toks, at, consumed)
    case SectionPayload(_) => false
  }

  predicate Placed(toks: seq<PtxToken>, pos: nat, b: nat, r: Parse<ParsedConstantExpression>) {
    match r
    case Parsed(e, next) => 1 <= e.height <= b && next >= pos
    case Failed(d, consumed) => RefusedThere(toks, pos, consumed, d)
  }

  lemma FromEarlier(toks: seq<PtxToken>, pos: nat, later: nat, b: nat, c: nat, r: Parse<ParsedConstantExpression>)
    requires pos <= later && b <= c && Placed(toks, later, b, r)
    ensures Placed(toks, pos, c, r)
  {
  }

  lemma {:induction false} ExpressionPlaced(toks: seq<PtxToken>, pos: nat, p: nat, b: nat)
    requires b > 0
    ensures Placed(toks, pos, b, ParseExpression(toks, pos, p, b))
    decreases b, 4, Remaining(toks, pos)
  {
    hide ParseUnary, BinaryTail, RefusedThere;
    UnaryPlaced(toks, pos, b);
    var r := ParseUnary(toks, pos, b);
    if r.Parsed? {
      BinaryTailPlaced(toks, r.value, r.pos, p, b);
      FromEarlier(toks, pos, r.pos, b, b, BinaryTail(toks, r.value, r.pos, p, b));
    }
  }

  lemma {:induction false} UnaryPlaced(toks: seq<PtxToken>, pos: nat, b: nat)
    requires b > 0
    ensures Placed(toks, pos, b, ParseUnary(toks, pos, b))
    decreases b, 3, Remaining(toks, pos)
  {
    hide ParsePrimary, BeginsNoOperand;
    if !IsConstantUnaryOperator(TokenAt(toks, pos).kind) {
      PrimaryPlaced(toks, pos, b);
    } else if b > 1 {
      UnaryPlaced(toks, pos + 1, b - 1);
    }
  }

  lemma NoOperandKind(kind: TokenKind)
    requires !IsConstantUnaryOperator(kind) && !IsConstantLiteral(kind) && !kind.Ident? && !kind.LParen?
    ensures BeginsNoOperand(kind)
  {
  }

  lemma {:induction false} PrimaryPlaced(toks: seq<PtxToken>, pos: nat, b: nat)
    requires b > 0 && !IsConstantUnaryOperator(TokenAt(toks, pos).kind)
    ensures Placed(toks, pos, b, ParsePrimary(toks, pos, b))
    decreases b, 2, Remaining(toks, pos)
  {
    hide ParseExpression, ParseCast, CallTail, RefusedThere, IsConstantLiteral, IsConstantUnaryOperator, IsCastType;
    var kind := TokenAt(toks, pos).kind;
    if IsConstantLiteral(kind) {
      var leaf := ParsedConstantExpression(Literal(pos), pos, 1);
      CallTailPlaced(toks, leaf, pos + 1, b);
      FromEarlier(toks, pos, pos + 1, b, b, CallTail(toks, leaf, pos + 1, b));
    } else if kind.Ident? {
      var leaf := ParsedConstantExpression(Symbol(pos), pos, 1);
      CallTailPlaced(toks, leaf, pos + 1, b);
      FromEarlier(toks, pos, pos + 1, b, b, CallTail(toks, leaf, pos + 1, b));
    } else if kind.LParen? {
      if IsCastType(TokenAt(toks, pos + 1)) {
        CastPlaced(toks, pos, b);
      } else if b > 1 {
        ExpressionPlaced(toks, pos + 1, 0, b - 1);
        var inner := ParseExpression(toks, pos + 1, 0, b - 1);
        FromEarlier(toks, pos, pos + 1, b - 1, b, inner);
        if inner.Parsed? {
          ClosingPlaced(toks, pos, inner.pos, RParen);
          var whole := ParsedConstantExpression(Parenthesized(pos, inner.value.expression, inner.pos), pos,
                                                inner.value.height + 1);
          if TokenAt(toks, inner.pos).kind.RParen? {
            CallTailPlaced(toks, whole, inner.pos + 1, b);
            FromEarlier(toks, pos, inner.pos + 1, b, b, CallTail(toks, whole, inner.pos + 1, b));
          }
        }
      } else {
        DeepPlaced(toks, pos, pos, pos + 1);
      }
    } else {
      NoOperandKind(kind);
      MalformedPlaced(toks, pos);
    }
  }

  lemma ClosingPlaced(toks: seq<PtxToken>, pos: nat, at: nat, kind: TokenKind)
    requires pos < at && (kind.RParen? || kind.Colon?)
    ensures TokenAt(toks, at).kind != kind ==> RefusedThere(toks, pos, at, Expected(at, kind))
  {
  }

  lemma DeepPlaced(toks: seq<PtxToken>, pos: nat, at: nat, consumed: nat)
    requires pos <= at && TooDeep(toks, at, consumed)
    ensures RefusedThere(toks, pos, consumed, DepthLimit(at))
  {
  }

  lemma MalformedPlaced(toks: seq<PtxToken>, pos: nat)
    requires BeginsNoOperand(TokenAt(toks, pos).kind)
    ensures RefusedThere(toks, pos, pos, Malformed(pos))
  {
  }

  lemma {:induction false} CastPlaced(toks: seq<PtxToken>, pos: nat, b: nat)
    requires b > 0 && TokenAt(toks, pos).kind.LParen? && IsCastType(TokenAt(toks, pos + 1))
    ensures Placed(toks, pos, b, ParseCast(toks, pos, b))
    decreases b, 1, Remaining(toks, pos)
  {
    hide ParseUnary, BeginsNoOperand;
    if TokenAt(toks, pos + 2).kind.RParen? && b > 1 {
      UnaryPlaced(toks, pos + 3, b - 1);
    }
  }

  lemma {:induction false} CallTailPlaced(toks: seq<PtxToken>, callee: ParsedConstantExpression, pos: nat, b: nat)
    requires 1 <= callee.height <= b
    ensures Placed(toks, pos, b, CallTail(toks, callee, pos, b))
    decreases b, 0, Remaining(toks, pos)
  {
    hide ParseExpression, RefusedThere;
    if TokenAt(toks, pos).kind.LParen? {
      DeepPlaced(toks, pos, pos, pos + 1);
      if callee.height < b {
        ExpressionPlaced(toks, pos + 1, 0, b - 1);
        var argument := ParseExpression(toks, pos + 1, 0, b - 1);
        FromEarlier(toks, pos, pos + 1, b - 1, b, argument);
        if argument.Parsed? {
          ClosingPlaced(toks, pos, argument.pos, RParen);
          if TokenAt(toks, argument.pos).kind.RParen? {
            var call := Call(callee.expression, pos, argument.value.expression, argument.pos);
            var height := Max(callee.height, argument.value.height) + 1;
            var whole := ParsedConstantExpression(call, callee.first, height);
            CallTailPlaced(toks, whole, argument.pos + 1, b);
            FromEarlier(toks, pos, argument.pos + 1, b, b, CallTail(toks, whole, argument.pos + 1, b));
          }
        }
      }
    }
  }

  lemma {:induction false} BinaryTailPlaced(toks: seq<PtxToken>, left: ParsedConstantExpression, pos: nat, p: nat, b: nat)
    requires 1 <= left.height <= b
    ensures Placed(toks, pos, b, BinaryTail(toks, left, pos, p, b))
    decreases b, 1, Remaining(toks, pos)
  {
    hide ParseExpression, ConditionalTail, RefusedThere, ConstantBinaryPrecedence;
    var precedence := ConstantBinaryPrecedence(TokenAt(toks, pos).kind);
    if precedence < p {
      ConditionalTailPlaced(toks, left, pos, p, b);
    } else {
      DeepPlaced(toks, pos, pos, pos + 1);
      if left.height < b {
        ExpressionPlaced(toks, pos + 1, precedence + 1, b - 1);
        var right := ParseExpression(toks, pos + 1, precedence + 1, b - 1);
        FromEarlier(toks, pos, pos + 1, b - 1, b, right);
        if right.Parsed? {
          var operation := BinaryOperation(left.expression, pos, right.value.expression);
          var height := Max(left.height, right.value.height) + 1;
          var whole := ParsedConstantExpression(operation, left.first, height);
          BinaryTailPlaced(toks, whole, right.pos, p, b);
          FromEarlier(toks, pos, right.pos, b, b, BinaryTail(toks, whole, right.pos, p, b));
        }
      }
    }
  }

  lemma {:induction false} ConditionalTailPlaced(toks: seq<PtxToken>, left: ParsedConstantExpression, pos: nat, p: nat, b: nat)
    requires 1 <= left.height <= b
    ensures Placed(toks, pos, b, ConditionalTail(toks, left, pos, p, b))
    decreases b, 0, 0
  {
    hide ParseExpression, RefusedThere;
    if p == 0 && TokenAt(toks, pos).kind.Question? {
      DeepPlaced(toks, pos, pos, pos + 1);
      if left.height < b {
        ExpressionPlaced(toks, pos + 1, 0, b - 1);
        var whenTrue := ParseExpression(toks, pos + 1, 0, b - 1);
        FromEarlier(toks, pos, pos + 1, b - 1, b, whenTrue);
        if whenTrue.Parsed? {
          ClosingPlaced(toks, pos, whenTrue.pos, Colon);
          if TokenAt(toks, whenTrue.pos).kind.Colon? {
            ExpressionPlaced(toks, whenTrue.pos + 1, 0, b - 1);
            var whenFalse := ParseExpression(toks, whenTrue.pos + 1, 0, b - 1);
            FromEarlier(toks, pos, whenTrue.pos + 1, b - 1, b, whenFalse);
          }
        }
      }
    }
  }

  /** With any budget at all, a refused expression is refused where the parse stands, for what stands there. */
  lemma RefusedExpression(toks: seq<PtxToken>, pos: nat, p: nat, b: nat)
    ensures var r := ParseExpression(toks, pos, p, b);
      r.Failed? ==> if b == 0 then r == Failed(DepthLimit(pos), pos) else RefusedThere(toks, pos, r.pos, r.diagnostic)
  {
    hide RefusedThere;
    if b > 0 {
      ExpressionPlaced(toks, pos, p, b);
    }
  }

  // ---- initializers -----------------------------------------------------------------------------

  /**
   * An initializer's own refusals beside those of its values: a list that is not closed, no level left for a member's value,
   * or none for the elements of a list, which is blamed on its brace.
   */
  predicate InitializerRefusedThere(toks: seq<PtxToken>, pos: nat, consumed: nat, d: Diagnostic) {
    || RefusedThere(toks, pos, consumed, d)
    || (d.Expected? && d.kind.RBrace? && pos < d.at == consumed && !TokenAt(toks, d.at).kind.RBrace?)
    || (d.DepthLimit? && pos < d.at == consumed && TokenAt(toks, d.at - 1).kind.Eq?)
    || (d.DepthLimit? && pos <= d.at < consumed && TokenAt(toks, d.at).kind.LBrace?
        && (consumed == d.at + 1 || TokenAt(toks, consumed - 1).kind.Comma?))
  }

  lemma InitializerFromEarlier(toks: seq<PtxToken>, pos: nat, later: nat, consumed: nat, d: Diagnostic)
    requires pos <= later && InitializerRefusedThere(toks, later, consumed, d)
    ensures InitializerRefusedThere(toks, pos, consumed, d)
  {
  }

  lemma ValueFromEarlier(toks: seq<PtxToken>, pos: nat, later: nat, b: nat)
    requires pos <= later && (b == 0 ==> pos < later && TokenAt(toks, later - 1).kind.Eq?)
    ensures var r := ParseExpression(toks, later, 0, b);
      r.Failed? ==> InitializerRefusedThere(toks, pos, r.pos, r.diagnostic)
  {
    hide ParseExpression;
    RefusedExpression(toks, later, 0, b);
  }

  /** With any budget at all, a refused initializer is refused where the parse stands, for what stands there. */
  lemma {:induction false} RefusedInitializer(toks: seq<PtxToken>, pos: nat, b: nat)
    ensures var r := ParseInitializer(toks, pos, b);
      r.Failed? ==>
        if b == 0 then r == Failed(DepthLimit(pos), pos) else InitializerRefusedThere(toks, pos, r.pos, r.diagnostic)
    decreases b, 1, Remaining(toks, pos)
  {
    hide ParseExpression, ParseElements, RefusedThere;
    if b > 0 {
      if IsIdentifierToken(TokenAt(toks, pos).kind) && TokenAt(toks, pos + 1).kind.Eq? {
        ValueFromEarlier(toks, pos, pos + 2, b - 1);
      } else if !TokenAt(toks, pos).kind.LBrace? {
        ValueFromEarlier(toks, pos, pos, b);
      } else {
        RefusedElements(toks, pos, pos + 1, b);
      }
    }
  }

  lemma {:induction false} RefusedElements(toks: seq<PtxToken>, open: nat, pos: nat, b: nat)
    requires b > 0 && open < pos && TokenAt(toks, open).kind.LBrace? && (pos == open + 1 || TokenAt(toks, pos - 1).kind.Comma?)
    ensures var r := ParseElements(toks, open, pos, b);
      r.Failed? ==> InitializerRefusedThere(toks, open, r.pos, r.diagnostic)
    decreases b, 0, Remaining(toks, pos)
  {
    hide ParseInitializer, RefusedThere;
    if !TokenAt(toks, pos).kind.RBrace? && b > 1 {
      RefusedInitializer(toks, pos, b - 1);
      var e := ParseInitializer(toks, pos, b - 1);
      if e.Failed? {
        InitializerFromEarlier(toks, open, pos, e.pos, e.diagnostic);
      } else if TokenAt(toks, e.pos).kind.Comma? {
        RefusedElements(toks, open, e.pos + 1, b);
      }
    }
  }
}
