/** The constant-expression parser: recursive descent that advances the token buffer step by step. */
module ConstantParser {
  import opened Tokens
  import opened ConstantGrammar
  import opened TokenBuffer

  /** Equals `ParseExpression`: its binary operations are gathered by a loop, and the parser stands after them. */
  method ParseConstantExpression(parser: PtxCstParser, minimumPrecedence: nat, remaining: nat)
    returns (r: Parse<ParsedConstantExpression>)
    requires parser.Valid()
    modifies parser, parser.lexer
    ensures parser.Valid() && parser.Position() == r.pos
    ensures r == ParseExpression(parser.stream, old(parser.Position()), minimumPrecedence, remaining)
    decreases remaining, 4, Remaining(parser.stream, parser.Position())
  {
    hide PtxCstParser.Valid, PtxCstParser.Position, ParseUnary, ConditionalTail;
    var start := parser.Peek();
    if remaining == 0 {
      return Failed(DepthLimit(start), start);
    }
    r := ParseConstantUnary(parser, remaining);
    if r.Failed? {
      return r;
    }
    var left := r.value;
    var kind := parser.PeekKind();
    while ConstantBinaryPrecedence(kind) >= minimumPrecedence
      invariant parser.Valid() && kind == TokenAt(parser.stream, parser.Position()).kind
      invariant BinaryTail(parser.stream, left, parser.Position(), minimumPrecedence, remaining)
        == ParseExpression(parser.stream, start, minimumPrecedence, remaining)
      decreases Remaining(parser.stream, parser.Position())
    {
      var operator := parser.Consume();
      if left.height >= remaining {
        return Failed(DepthLimit(operator), operator + 1);
      }
      r := ParseConstantExpression(parser, ConstantBinaryPrecedence(kind) + 1, remaining - 1);
      if r.Failed? {
        return r;
      }
      var height := Max(left.height, r.value.height) + 1;
      if height > remaining {
        return Failed(DepthLimit(operator), r.pos);
      }
      left := ParsedConstantExpression(BinaryOperation(left.expression, operator, r.value.expression), left.first, height);
      kind := parser.PeekKind();
    }
    r := ParseConditional(parser, left, minimumPrecedence, remaining);
  }

  /** The conditional that may follow at the lowest level. */
  method ParseConditional(parser: PtxCstParser, left: ParsedConstantExpression, minimumPrecedence: nat, remaining: nat)
    returns (r: Parse<ParsedConstantExpression>)
    requires parser.Valid() && remaining > 0
    modifies parser, parser.lexer
    ensures parser.Valid() && parser.Position() == r.pos
    ensures r == ConditionalTail(parser.stream, left, old(parser.Position()), minimumPrecedence, remaining)
    decreases remaining, 0, 0
  {
    hide PtxCstParser.Valid, PtxCstParser.Position, ParseExpression;
    var kind := parser.PeekKind();
    if minimumPrecedence != 0 || !kind.Question? {
      var at := parser.Peek();
      return Parsed(left, at);
    }
    var question := parser.Consume();
    if left.height >= remaining {
      return Failed(DepthLimit(question), question + 1);
    }
    r := ParseConstantExpression(parser, 0, remaining - 1);
    if r.Failed? {
      return r;
    }
    var trueExpression := r.value;
    var colon := parser.Take(Colon);
    if colon.Failed? {
      return Failed(colon.diagnostic, colon.pos);
    }
    r := ParseConstantExpression(parser, 0, remaining - 1);
    if r.Failed? {
      return r;
    }
    var height := Max(left.height, Max(trueExpression.height, r.value.height)) + 1;
    if height > remaining {
      return Failed(DepthLimit(question), r.pos);
    }
    return Parsed(ParsedConstantExpression(
                    Conditional(left.expression, question, trueExpression.expression, colon.value, r.value.expression),
                    left.first, height), r.pos);
  }

  /** Equals `ParseUnary`: a prefix operator over a lower operand, or a primary. */
  method ParseConstantUnary(parser: PtxCstParser, remaining: nat) returns (r: Parse<ParsedConstantExpression>)
    requires parser.Valid()
    modifies parser, parser.lexer
    ensures parser.Valid() && parser.Position() == r.pos
    ensures r == ParseUnary(parser.stream, old(parser.Position()), remaining)
    decreases remaining, 3, Remaining(parser.stream, parser.Position())
  {
    hide PtxCstParser.Valid, PtxCstParser.Position, ParsePrimary;
    var start := parser.Peek();
    if remaining == 0 {
      return Failed(DepthLimit(start), start);
    }
    var kind := parser.PeekKind();
    if !IsConstantUnaryOperator(kind) {
      r := ParseConstantPrimary(parser, remaining);
      return r;
    }
    var operator := parser.Consume();
    if remaining == 1 {
      return Failed(DepthLimit(operator), operator + 1);
    }
    r := ParseConstantUnary(parser, remaining - 1);
    if r.Failed? {
      return r;
    }
    return Parsed(ParsedConstantExpression(UnaryOperation(operator, r.value.expression), operator, r.value.height + 1), r.pos);
  }

  /** Parse a leaf, cast or parentheses, and then the calls that apply a leaf or parentheses. */
  method ParseConstantPrimary(parser: PtxCstParser, remaining: nat) returns (r: Parse<ParsedConstantExpression>)
    requires parser.Valid()
    modifies parser, parser.lexer
    ensures parser.Valid() && parser.Position() == r.pos
    ensures r == ParsePrimary(parser.stream, old(parser.Position()), remaining)
    decreases remaining, 2, Remaining(parser.stream, parser.Position())
  {
    hide PtxCstParser.Valid, PtxCstParser.Position, ParseExpression, ParseCast, CallTail;
    var first := parser.Peek();
    if remaining == 0 {
      return Failed(DepthLimit(first), first);
    }
    var kind := parser.PeekKind();
    if IsConstantLiteral(kind) {
      var literal := parser.Consume();
      r := ParseCalls(parser, ParsedConstantExpression(Literal(literal), literal, 1), remaining);
    } else if kind.Ident? {
      var name := parser.Consume();
      r := ParseCalls(parser, ParsedConstantExpression(Symbol(name), name, 1), remaining);
    } else if kind.LParen? {
      r := ParseParenthesized(parser, remaining);
    } else {
      return Failed(Malformed(first), first);
    }
  }

  /** A cast or a parenthesized expression with the calls that apply it, from its left parenthesis on. */
  method ParseParenthesized(parser: PtxCstParser, remaining: nat) returns (r: Parse<ParsedConstantExpression>)
    requires parser.Valid() && remaining > 0 && TokenAt(parser.stream, parser.Position()).kind.LParen?
    modifies parser, parser.lexer
    ensures parser.Valid() && parser.Position() == r.pos
    ensures r == ParsePrimary(parser.stream, old(parser.Position()), remaining)
    decreases remaining, 1, Remaining(parser.stream, parser.Position())
  {
    hide PtxCstParser.Valid, PtxCstParser.Position, ParseExpression, ParseCast, CallTail, IsCastType;
    var leftParen := parser.Consume();
    var next := parser.PeekToken();
    if IsCastType(next) {
      r := ParseConstantCast(parser, leftParen, remaining);
      return r;
    }
    if remaining == 1 {
      return Failed(DepthLimit(leftParen), leftParen + 1);
    }
    r := ParseConstantExpression(parser, 0, remaining - 1);
    if r.Failed? {
      return r;
    }
    var inner := r.value;
    var rightParen := parser.Take(RParen);
    if rightParen.Failed? {
      return Failed(rightParen.diagnostic, rightParen.pos);
    }
    r := ParseCalls(parser, ParsedConstantExpression(Parenthesized(leftParen, inner.expression, rightParen.value),
                                                     leftParen, inner.height + 1), remaining);
  }

  /** The rest of a cast whose type token is current. */
  method ParseConstantCast(parser: PtxCstParser, leftParen: nat, remaining: nat) returns (r: Parse<ParsedConstantExpression>)
    requires parser.Valid() && remaining > 0 && parser.Position() == leftParen + 1
    modifies parser, parser.lexer
    ensures parser.Valid() && parser.Position() == r.pos
    ensures r == ParseCast(parser.stream, leftParen, remaining)
    decreases remaining, 0, 0
  {
    hide PtxCstParser.Valid, PtxCstParser.Position, ParseUnary;
    var typ := parser.Consume();
    var rightParen := parser.Take(RParen);
    if rightParen.Failed? {
      return Failed(rightParen.diagnostic, rightParen.pos);
    }
    if remaining == 1 {
      return Failed(DepthLimit(leftParen), rightParen.pos);
    }
    r := ParseConstantUnary(parser, remaining - 1);
    if r.Failed? {
      return r;
    }
    return Parsed(ParsedConstantExpression(Cast(leftParen, typ, rightParen.value, r.value.expression), leftParen,
                                           r.value.height + 1), r.pos);
  }

  /** The calls that apply a primary, each argument one level below the call. */
  method ParseCalls(parser: PtxCstParser, primary: ParsedConstantExpression, remaining: nat)
    returns (r: Parse<ParsedConstantExpression>)
    requires parser.Valid() && remaining > 0
    modifies parser, parser.lexer
    ensures parser.Valid() && parser.Position() == r.pos
    ensures r == CallTail(parser.stream, primary, old(parser.Position()), remaining)
    decreases remaining, 0, 0
  {
    hide PtxCstParser.Valid, PtxCstParser.Position, ParseExpression;
    var expression := primary;
    var kind := parser.PeekKind();
    while kind.LParen?
      invariant parser.Valid() && kind == TokenAt(parser.stream, parser.Position()).kind
      invariant CallTail(parser.stream, expression, parser.Position(), remaining)
        == CallTail(parser.stream, primary, old(parser.Position()), remaining)
      decreases Remaining(parser.stream, parser.Position())
    {
      var leftParen := parser.Consume();
      if expression.height >= remaining {
        return Failed(DepthLimit(leftParen), leftParen + 1);
      }
      r := ParseConstantExpression(parser, 0, remaining - 1);
      if r.Failed? {
        return r;
      }
      var argument := r.value;
      var rightParen := parser.Take(RParen);
      if rightParen.Failed? {
        return Failed(rightParen.diagnostic, rightParen.pos);
      }
      var height := Max(expression.height, argument.height) + 1;
      if height > remaining {
        return Failed(DepthLimit(leftParen), rightParen.pos);
      }
      expression := ParsedConstantExpression(Call(expression.expression, leftParen, argument.expression, rightParen.value),
                                             expression.first, height);
      kind := parser.PeekKind();
    }
    var at := parser.Peek();
    return Parsed(expression, at);
  }
}
