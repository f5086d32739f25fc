/** The initializer and numeric-operand parsers over the token buffer. */
module InitializerParser {
  import opened Common
  import opened Tokens
  import opened ConstantGrammar
  import opened ConstantTheorems
  import opened ConstantParser
  import opened InitializerGrammar
  import opened TokenBuffer

  /** The list of `elements`, each with its comma, continued by `rest`. */
  function Chain(elements: seq<Initializer<nat>>, commas: seq<nat>, rest: Elements<nat>): Elements<nat>
    requires |elements| == |commas|
  {
    if elements == [] then rest
    else
      var n := |elements| - 1;
      Chain(elements[..n], commas[..n], Then(elements[n], commas[n], rest))
  }

  lemma ChainStep(elements: seq<Initializer<nat>>, commas: seq<nat>, e: Initializer<nat>, c: nat, rest: Elements<nat>)
    requires |elements| == |commas|
    ensures Chain(elements + [e], commas + [c], rest) == Chain(elements, commas, Then(e, c, rest))
  {
    assert (elements + [e])[..|elements|] == elements && (commas + [c])[..|commas|] == commas;
  }

  /** What a list parse comes to when `elements` were parsed and the rest of it comes to `rest`. */
  function Resumed(elements: seq<Initializer<nat>>, commas: seq<nat>, maximum: nat, rest: Parse<ParsedElements>):
    Parse<ParsedElements>
    requires |elements| == |commas|
  {
    match rest
    case Failed(d, at) => Failed(d, at)
    case Parsed(es, at) => Parsed(ParsedElements(Chain(elements, commas, es.elements), Max(maximum, es.height)), at)
  }

  /** Equals `ParseInitializer`: two tokens of lookahead tell a member from a scalar. */
  method ParseInitializerTree(parser: PtxCstParser, remaining: nat) returns (r: Parse<ParsedInitializer>)
    requires parser.Valid()
    modifies parser, parser.lexer
    ensures parser.Valid() && parser.Position() == r.pos
    ensures r == ParseInitializer(parser.stream, old(parser.Position()), remaining)
    decreases remaining, 1
  {
    hide PtxCstParser.Valid, PtxCstParser.Position, ParseExpression, ParseElements;
    var first := parser.PeekToken();
    if remaining == 0 {
      var at := parser.Peek();
      return Failed(DepthLimit(at), at);
    }
    if IsIdentifierToken(first.kind) {
      var next := parser.PeekNext();
      if parser.Token(next).kind.Eq? {
        assert parser.Token(next) == TokenAt(parser.stream, next) by { parser.Buffers(next); }
        r := ParseNamed(parser, remaining);
        return r;
      }
      assert parser.Token(next) == TokenAt(parser.stream, next) by { parser.Buffers(next); }
    }
    if !first.kind.LBrace? {
      var scalar := ParseConstantExpression(parser, 0, remaining);
      if scalar.Failed? {
        return Failed(scalar.diagnostic, scalar.pos);
      }
      return Parsed(ParsedInitializer(Scalar(scalar.value.expression), scalar.value.height), scalar.pos);
    }
    var leftBrace := parser.Consume();
    var elements := ParseList(parser, leftBrace, remaining);
    if elements.Failed? {
      return Failed(elements.diagnostic, elements.pos);
    }
    var rightBrace := parser.Take(RBrace);
    if rightBrace.Failed? {
      return Failed(rightBrace.diagnostic, rightBrace.pos);
    }
    return Parsed(ParsedInitializer(Braced(leftBrace, elements.value.elements, rightBrace.value), elements.value.height + 1),
                  rightBrace.pos);
  }

  /** A member name, an equals sign and the member's value. */
  method ParseNamed(parser: PtxCstParser, remaining: nat) returns (r: Parse<ParsedInitializer>)
    requires parser.Valid() && remaining > 0
    requires IsIdentifierToken(TokenAt(parser.stream, parser.Position()).kind)
    requires TokenAt(parser.stream, parser.Position() + 1).kind.Eq?
    modifies parser, parser.lexer
    ensures parser.Valid() && parser.Position() == r.pos
    ensures r == ParseInitializer(parser.stream, old(parser.Position()), remaining)
  {
    hide PtxCstParser.Valid, PtxCstParser.Position, ParseExpression, ParseElements;
    var member := parser.Consume();
    var equals := parser.Consume();
    var value := ParseConstantExpression(parser, 0, remaining - 1);
    if value.Failed? {
      return Failed(value.diagnostic, value.pos);
    }
    return Parsed(ParsedInitializer(Named(member, equals, value.value.expression), value.value.height + 1), value.pos);
  }

  /** The elements and commas of a list, up to its closing brace or the element that no comma follows. */
  method ParseList(parser: PtxCstParser, leftBrace: nat, remaining: nat) returns (r: Parse<ParsedElements>)
    requires parser.Valid() && remaining > 0
    modifies parser, parser.lexer
    ensures parser.Valid() && parser.Position() == r.pos
    ensures r == ParseElements(parser.stream, leftBrace, old(parser.Position()), remaining)
    decreases remaining, 0
  {
    hide PtxCstParser.Valid, PtxCstParser.Position, ParseInitializer;
    var elements: seq<Initializer<nat>>, commas: seq<nat>, maximum := [], [], 0;
    var kind := parser.PeekKind();
    while !kind.RBrace?
      invariant parser.Valid() && |elements| == |commas| && kind == TokenAt(parser.stream, parser.Position()).kind
      invariant Resumed(elements, commas, maximum, ParseElements(parser.stream, leftBrace, parser.Position(), remaining))
        == ParseElements(parser.stream, leftBrace, old(parser.Position()), remaining)
      decreases Remaining(parser.stream, parser.Position())
    {
      if remaining == 1 {
        var at := parser.Peek();
        return Failed(DepthLimit(leftBrace), at);
      }
      var element := ParseInitializerTree(parser, remaining - 1);
      if element.Failed? {
        return Failed(element.diagnostic, element.pos);
      }
      var highest := Max(maximum, element.value.height);
      kind := parser.PeekKind();
      if !kind.Comma? {
        return Parsed(ParsedElements(Chain(elements, commas, Final(element.value.initializer)), highest), element.pos);
      }
      var comma := parser.Consume();
      kind := parser.PeekKind();
      Step(parser.stream, leftBrace, element, remaining, elements, commas, maximum);
      maximum := highest;
      elements, commas := elements + [element.value.initializer], commas + [comma];
    }
    var at := parser.Peek();
    return Parsed(ParsedElements(Chain(elements, commas, NoMore), maximum), at);
  }

  /** One element and its comma move from the rest of the list into what has been parsed. */
  lemma Step(toks: seq<PtxToken>, open: nat, element: Parse<ParsedInitializer>, b: nat,
             elements: seq<Initializer<nat>>, commas: seq<nat>, maximum: nat)
    requires b > 1 && |elements| == |commas| && element.Parsed? && TokenAt(toks, element.pos).kind.Comma?
    ensures forall pos: nat ::
      ParseInitializer(toks, pos, b - 1) == element && !TokenAt(toks, pos).kind.RBrace? ==>
        Resumed(elements, commas, maximum, ParseElements(toks, open, pos, b))
        == Resumed(elements + [element.value.initializer], commas + [element.pos], Max(maximum, element.value.height),
                   ParseElements(toks, open, element.pos + 1, b))
  {
    hide ParseInitializer, Chain;
    var rest := ParseElements(toks, open, element.pos + 1, b);
    if rest.Parsed? {
      ChainStep(elements, commas, element.value.initializer, element.pos, rest.value.elements);
    }
  }

  // ---- numeric operands -------------------------------------------------------------------------

  /** An operand that is a literal, possibly signed, or a compound expression. */
  datatype NumericOperand = Immediate(sign: Option<nat>, literal: nat) | ConstantOperand(expression: ConstantExpression<nat>)

  const MAX_CONSTANT_TREE_DEPTH := 128

  predicate IsRegisterName(t: PtxToken) {
    t.kind.Ident? && t.text != "" && t.text[0] == '%'
  }

  /** The operand's leaves in source order. */
  function OperandLeaves(o: NumericOperand): seq<nat> {
    match o
    case Immediate(None, l) => [l]
    case Immediate(Some(sign), l) => [sign, l]
    case ConstantOperand(e) => Flatten(e)
  }

  /** The lowest precedence of an operand: everything, or only what binds tighter than a sum. */
  function BoundaryPrecedence(full: bool): nat {
    if full then 0 else ConstantBinaryPrecedence(Plus) + 1
  }

  /** An unsigned or signed literal leaf is an immediate; everything else stays a tree, and registers are refused. */
  method ParseNumericOperand(parser: PtxCstParser, full: bool) returns (r: Parse<NumericOperand>)
    requires parser.Valid()
    modifies parser, parser.lexer
    ensures parser.Valid() && parser.Position() == r.pos
    ensures var e := ParseExpression(parser.stream, old(parser.Position()), BoundaryPrecedence(full), MAX_CONSTANT_TREE_DEPTH);
      && r.pos == e.pos
      && (e.Failed? ==> r == Failed(e.diagnostic, e.pos))
      && (r.Parsed? ==>
          && e.Parsed? && OperandLeaves(r.value) == Flatten(e.value.expression)
          && forall i :: old(parser.Position()) <= i < e.pos ==> !IsRegisterName(TokenAt(parser.stream, i)))
      && (r.Parsed? ==> (r.value.Immediate? <==> IsSignedLiteral(parser.stream, e.value.expression)))
      && (r.Parsed? && r.value.ConstantOperand? ==> r.value.expression == e.value.expression)
      && (r.Failed? && e.Parsed? ==>
          && old(parser.Position()) <= r.diagnostic.at < e.pos && r.diagnostic == Malformed(r.diagnostic.at)
          && IsRegisterName(TokenAt(parser.stream, r.diagnostic.at))
          && forall i :: old(parser.Position()) <= i < r.diagnostic.at ==> !IsRegisterName(TokenAt(parser.stream, i)))
  {
    hide PtxCstParser.Valid, PtxCstParser.Position, ParseExpression;
    var first := parser.Peek();
    var parsed := ParseConstantExpression(parser, BoundaryPrecedence(full), MAX_CONSTANT_TREE_DEPTH);
    if parsed.Failed? {
      return Failed(parsed.diagnostic, parsed.pos);
    }
    for i := first to parsed.pos
      invariant parser.Valid() && parser.Position() == parsed.pos
      invariant forall j :: first <= j < i ==> !IsRegisterName(TokenAt(parser.stream, j))
    {
      parser.Buffers(i);
      if IsRegisterName(parser.Token(i)) {
        return Failed(Malformed(i), parsed.pos);
      }
    }
    var e := parsed.value.expression;
    if e.Literal? {
      return Parsed(Immediate(None, e.literal), parsed.pos);
    }
    if e.UnaryOperation? && e.operand.Literal? {
      OperatorIsConsumed(parser.stream, first, BoundaryPrecedence(full));
      parser.Buffers(e.operator);
      var kind := parser.Token(e.operator).kind;
      if kind.Plus? || kind.Minus? {
        return Parsed(Immediate(Some(e.operator), e.operand.literal), parsed.pos);
      }
    }
    return Parsed(ConstantOperand(e), parsed.pos);
  }

  predicate IsSignedLiteral(toks: seq<PtxToken>, e: ConstantExpression<nat>) {
    || e.Literal?
    || (&& e.UnaryOperation? && e.operand.Literal?
        && (TokenAt(toks, e.operator).kind.Plus? || TokenAt(toks, e.operator).kind.Minus?))
  }

  lemma OperatorIsConsumed(toks: seq<PtxToken>, pos: nat, p: nat)
    requires var r := ParseExpression(toks, pos, p, MAX_CONSTANT_TREE_DEPTH); r.Parsed? && r.value.expression.UnaryOperation?
    ensures var r := ParseExpression(toks, pos, p, MAX_CONSTANT_TREE_DEPTH); pos <= r.value.expression.operator < r.pos
  {
    hide ParseExpression;
    var s := ParsedIsCanonical(toks, pos, p, MAX_CONSTANT_TREE_DEPTH);
    var r := ParseExpression(toks, pos, p, MAX_CONSTANT_TREE_DEPTH);
    assert Flatten(r.value.expression)[0] == r.value.expression.operator;
    assert |Ids(pos, r.pos - pos)| == r.pos - pos;
  }
}
