/** Constant expressions: their trees, their grammar, and the precedence-climbing parse as a function. */
module ConstantGrammar {
  import opened Common
  import opened Tokens

  /** A constant expression over leaves `A`: token ids in a parsed tree, tokens in a written one. */
  datatype ConstantExpression<A> =
    | Literal(literal: A)
    | Symbol(name: A)
    | Parenthesized(leftParen: A, expression: ConstantExpression<A>, rightParen: A)
    | Call(callee: ConstantExpression<A>, leftParen: A, argument: ConstantExpression<A>, rightParen: A)
    | Cast(leftParen: A, typ: A, rightParen: A, operand: ConstantExpression<A>)
    | UnaryOperation(operator: A, operand: ConstantExpression<A>)
    | BinaryOperation(left: ConstantExpression<A>, operator: A, right: ConstantExpression<A>)
    | Conditional(condition: ConstantExpression<A>, question: A, trueExpression: ConstantExpression<A>,
                  colon: A, falseExpression: ConstantExpression<A>)

  /** The leaves in tree order. */
  function Flatten<A>(e: ConstantExpression<A>): seq<A> {
    match e
    case Literal(l) => [l]
    case Symbol(n) => [n]
    case Parenthesized(l, inner, r) => [l] + Flatten(inner) + [r]
    case Call(c, l, a, r) => Flatten(c) + [l] + Flatten(a) + [r]
    case Cast(l, t, r, o) => [l, t, r] + Flatten(o)
    case UnaryOperation(op, o) => [op] + Flatten(o)
    case BinaryOperation(l, op, r) => Flatten(l) + [op] + Flatten(r)
    case Conditional(c, q, t, k, f) => Flatten(c) + [q] + Flatten(t) + [k] + Flatten(f)
  }

  function Size<A>(e: ConstantExpression<A>): (n: nat)
    ensures n > 0
  {
    match e
    case Literal(_) => 1
    case Symbol(_) => 1
    case Parenthesized(_, inner, _) => Size(inner) + 2
    case Call(c, _, a, _) => Size(c) + Size(a) + 2
    case Cast(_, _, _, o) => Size(o) + 3
    case UnaryOperation(_, o) => Size(o) + 1
    case BinaryOperation(l, _, r) => Size(l) + Size(r) + 1
    case Conditional(c, _, t, _, f) => Size(c) + Size(t) + Size(f) + 2
  }

  function Max(a: nat, b: nat): nat {
    if a < b then b else a
  }

  /** The true structural height: a leaf is one, each wrapper adds one. */
  function Height<A>(e: ConstantExpression<A>): (h: nat)
    ensures h > 0
  {
    match e
    case Literal(_) => 1
    case Symbol(_) => 1
    case Parenthesized(_, inner, _) => Height(inner) + 1
    case Call(c, _, a, _) => Max(Height(c), Height(a)) + 1
    case Cast(_, _, _, o) => Height(o) + 1
    case UnaryOperation(_, o) => Height(o) + 1
    case BinaryOperation(l, _, r) => Max(Height(l), Height(r)) + 1
    case Conditional(c, _, t, _, f) => Max(Height(c), Max(Height(t), Height(f))) + 1
  }

  // ---- the grammar ------------------------------------------------------------------------------

  predicate IsCastType(t: PtxToken) {
    t.kind.DotIdent? && (t.text == ".s64" || t.text == ".u64")
  }

  /** A leaf, a parenthesized expression, or a primary applied to an argument. */
  predicate IsPrimary(e: ConstantExpression<PtxToken>)
    decreases e, 0
  {
    match e
    case Literal(l) => IsConstantLiteral(l.kind)
    case Symbol(n) => n.kind.Ident?
    case Parenthesized(l, inner, r) => l.kind.LParen? && IsExpression(inner, 0) && r.kind.RParen?
    case Call(c, l, a, r) => IsPrimary(c) && l.kind.LParen? && IsExpression(a, 0) && r.kind.RParen?
    case _ => false
  }

  predicate IsUnary(e: ConstantExpression<PtxToken>)
    decreases e, 1
  {
    match e
    case Cast(l, t, r, o) => l.kind.LParen? && IsCastType(t) && r.kind.RParen? && IsUnary(o)
    case UnaryOperation(op, o) => IsConstantUnaryOperator(op.kind) && IsUnary(o)
    case BinaryOperation(_, _, _) => false
    case Conditional(_, _, _, _, _) => false
    case _ => IsPrimary(e)
  }

  /** Left-associative binary operations of precedence at least `p`, right operands binding tighter. */
  predicate IsBinary(e: ConstantExpression<PtxToken>, p: nat)
    decreases e, 2
  {
    match e
    case BinaryOperation(l, op, r) =>
      var q := ConstantBinaryPrecedence(op.kind);
      q >= p && IsBinary(l, q) && IsBinary(r, q + 1)
    case Conditional(_, _, _, _, _) => false
    case _ => IsUnary(e)
  }

  /** At the lowest level a conditional may follow, right-nested in its last branch. */
  predicate IsExpression(e: ConstantExpression<PtxToken>, p: nat)
    decreases e, 3
  {
    match e
    case Conditional(c, q, t, k, f) =>
      p == 0 && IsBinary(c, 0) && q.kind.Question? && IsExpression(t, 0) && k.kind.Colon? && IsExpression(f, 0)
    case _ => IsBinary(e, p)
  }

  /** A token that cannot continue an expression of precedence level `p`. */
  predicate Stops(kind: TokenKind, p: nat) {
    !kind.LParen? && ConstantBinaryPrecedence(kind) < p && (p == 0 ==> !kind.Question?)
  }

  // ---- the parse --------------------------------------------------------------------------------

  /** A diagnostic at a token: the tree is too deep, a particular kind was expected, or neither. */
  datatype Diagnostic = DepthLimit(at: nat) | Expected(at: nat, kind: TokenKind) | Malformed(at: nat) | SectionPayload(at: nat)
  {
    function ExpectedKind(): Option<TokenKind> {
      if Expected? then Some(kind) else None
    }
  }

  /** A production's outcome and the number of tokens consumed by then. */
  datatype Parse<+T> = Parsed(value: T, pos: nat) | Failed(diagnostic: Diagnostic, pos: nat)

  datatype ParsedConstantExpression = ParsedConstantExpression(expression: ConstantExpression<nat>, first: nat, height: nat)

  function Expect(toks: seq<PtxToken>, pos: nat, kind: TokenKind): (r: Parse<nat>)
    ensures r.Parsed? ==> r.pos == pos + 1 && r.value == pos
    ensures r.Failed? ==> r.pos == pos
  {
    if TokenAt(toks, pos).kind == kind then Parsed(pos, pos + 1) else Failed(Expected(pos, kind), pos)
  }

  /** How many tokens are left before the endless end tokens. */
  function Remaining(toks: seq<PtxToken>, pos: nat): nat {
    if pos < |toks| then |toks| - pos else 0
  }

  function ParseExpression(toks: seq<PtxToken>, pos: nat, p: nat, budget: nat): (r: Parse<ParsedConstantExpression>)
    ensures r.Parsed? ==> r.pos > pos
    ensures r.pos >= pos
    decreases budget, 4, Remaining(toks, pos)
  {
    if budget == 0 then Failed(DepthLimit(pos), pos)
    else
      match ParseUnary(toks, pos, budget)
      case Failed(d, at) => Failed(d, at)
      case Parsed(left, next) => BinaryTail(toks, left, next, p, budget)
  }

  function ParseUnary(toks: seq<PtxToken>, pos: nat, budget: nat): (r: Parse<ParsedConstantExpression>)
    ensures r.Parsed? ==> r.pos > pos
    ensures r.pos >= pos
    decreases budget, 3, Remaining(toks, pos)
  {
    if budget == 0 then Failed(DepthLimit(pos), pos)
    else if !IsConstantUnaryOperator(TokenAt(toks, pos).kind) then ParsePrimary(toks, pos, budget)
    else if budget == 1 then Failed(DepthLimit(pos), pos + 1)
    else
      match ParseUnary(toks, pos + 1, budget - 1)
      case Failed(d, at) => Failed(d, at)
      case Parsed(o, next) => Parsed(ParsedConstantExpression(UnaryOperation(pos, o.expression), pos, o.height + 1), next)
  }

  function ParsePrimary(toks: seq<PtxToken>, pos: nat, budget: nat): (r: Parse<ParsedConstantExpression>)
    ensures r.Parsed? ==> r.pos > pos
    ensures r.pos >= pos
    decreases budget, 2, Remaining(toks, pos)
  {
    if budget == 0 then Failed(DepthLimit(pos), pos)
    else if IsConstantLiteral(TokenAt(toks, pos).kind) then
      CallTail(toks, ParsedConstantExpression(Literal(pos), pos, 1), pos + 1, budget)
    else if TokenAt(toks, pos).kind.Ident? then
      CallTail(toks, ParsedConstantExpression(Symbol(pos), pos, 1), pos + 1, budget)
    else if TokenAt(toks, pos).kind.LParen? then
      if IsCastType(TokenAt(toks, pos + 1)) then ParseCast(toks, pos, budget)
      else if budget == 1 then Failed(DepthLimit(pos), pos + 1)
      else
        match ParseExpression(toks, pos + 1, 0, budget - 1)
        case Failed(d, at) => Failed(d, at)
        case Parsed(inner, next) =>
          match Expect(toks, next, RParen)
          case Failed(d, at) => Failed(d, at)
          case Parsed(close, after) =>
            CallTail(toks, ParsedConstantExpression(Parenthesized(pos, inner.expression, close), pos, inner.height + 1),
                     after, budget)
    else Failed(Malformed(pos), pos)
  }

  /** A cast takes a unary operand and is never applied as a call. */
  function ParseCast(toks: seq<PtxToken>, pos: nat, budget: nat): (r: Parse<ParsedConstantExpression>)
    requires budget > 0
    ensures r.Parsed? ==> r.pos > pos
    ensures r.pos >= pos
    decreases budget, 1, Remaining(toks, pos)
  {
    match Expect(toks, pos + 2, RParen)
    case Failed(d, at) => Failed(d, at)
    case Parsed(close, next) =>
      if budget == 1 then Failed(DepthLimit(pos), next)
      else
        match ParseUnary(toks, next, budget - 1)
        case Failed(d, at) => Failed(d, at)
        case Parsed(o, after) =>
          Parsed(ParsedConstantExpression(Cast(pos, pos + 1, close, o.expression), pos, o.height + 1), after)
  }

  /** The applications that follow a primary. */
  function CallTail(toks: seq<PtxToken>, callee: ParsedConstantExpression, pos: nat, budget: nat):
    (r: Parse<ParsedConstantExpression>)
    requires budget > 0
    ensures r.pos >= pos
    decreases budget, 0, Remaining(toks, pos)
  {
    if !TokenAt(toks, pos).kind.LParen? then Parsed(callee, pos)
    else if callee.height >= budget then Failed(DepthLimit(pos), pos + 1)
    else
      match ParseExpression(toks, pos + 1, 0, budget - 1)
      case Failed(d, at) => Failed(d, at)
      case Parsed(argument, next) =>
        match Expect(toks, next, RParen)
        case Failed(d, at) => Failed(d, at)
        case Parsed(close, after) =>
          var height := Max(callee.height, argument.height) + 1;
          if height > budget then Failed(DepthLimit(pos), after)
          else
            CallTail(toks, ParsedConstantExpression(Call(callee.expression, pos, argument.expression, close),
                                                    callee.first, height), after, budget)
  }

  /** The binary operations of sufficient precedence that follow, and then a conditional at the lowest level. */
  function BinaryTail(toks: seq<PtxToken>, left: ParsedConstantExpression, pos: nat, p: nat, budget: nat):
    (r: Parse<ParsedConstantExpression>)
    requires budget > 0
    ensures r.pos >= pos
    decreases budget, 1, Remaining(toks, pos)
  {
    var precedence := ConstantBinaryPrecedence(TokenAt(toks, pos).kind);
    if precedence < p then ConditionalTail(toks, left, pos, p, budget)
    else if left.height >= budget then Failed(DepthLimit(pos), pos + 1)
    else
      match ParseExpression(toks, pos + 1, precedence + 1, budget - 1)
      case Failed(d, at) => Failed(d, at)
      case Parsed(right, next) =>
        var height := Max(left.height, right.height) + 1;
        if height > budget then Failed(DepthLimit(pos), next)
        else
          BinaryTail(toks, ParsedConstantExpression(BinaryOperation(left.expression, pos, right.expression), left.first, height),
                     next, p, budget)
  }

  function ConditionalTail(toks: seq<PtxToken>, left: ParsedConstantExpression, pos: nat, p: nat, budget: nat):
    (r: Parse<ParsedConstantExpression>)
    requires budget > 0
    ensures r.pos >= pos
    decreases budget, 0, 0
  {
    if p != 0 || !TokenAt(toks, pos).kind.Question? then Parsed(left, pos)
    else if left.height >= budget then Failed(DepthLimit(pos), pos + 1)
    else
      match ParseExpression(toks, pos + 1, 0, budget - 1)
      case Failed(d, at) => Failed(d, at)
      case Parsed(t, next) =>
        match Expect(toks, next, Colon)
        case Failed(d, at) => Failed(d, at)
        case Parsed(colon, last) =>
          match ParseExpression(toks, last, 0, budget - 1)
          case Failed(d, at) => Failed(d, at)
          case Parsed(f, after) =>
            var height := Max(left.height, Max(t.height, f.height)) + 1;
            if height > budget then Failed(DepthLimit(pos), after)
            else
              Parsed(ParsedConstantExpression(Conditional(left.expression, pos, t.expression, colon, f.expression),
                                              left.first, height), after)
  }
}
