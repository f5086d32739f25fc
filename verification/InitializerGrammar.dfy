/** Initializers: scalar, named and brace-list trees, their grammar and their budgeted parse. */
module InitializerGrammar {
  import opened Tokens
  import opened ConstantGrammar

  datatype Initializer<A> =
    | Named(member: A, equals: A, value: ConstantExpression<A>)
    | Scalar(scalar: ConstantExpression<A>)
    | Braced(leftBrace: A, elements: Elements<A>, rightBrace: A)

  /** A list's elements with the commas after them; a comma may close the list. */
  datatype Elements<A> = NoMore | Final(last: Initializer<A>) | Then(element: Initializer<A>, comma: A, rest: Elements<A>)

  function FlattenInitializer<A>(s: Initializer<A>): seq<A> {
    match s
    case Named(m, e, v) => [m] + ([e] + Flatten(v))
    case Scalar(v) => Flatten(v)
    case Braced(l, es, r) => [l] + (FlattenElements(es) + [r])
  }

  function FlattenElements<A>(es: Elements<A>): seq<A> {
    match es
    case NoMore => []
    case Final(e) => FlattenInitializer(e)
    case Then(e, c, rest) => FlattenInitializer(e) + [c] + FlattenElements(rest)
  }

  function InitializerSize<A>(s: Initializer<A>): nat {
    match s
    case Named(_, _, v) => Size(v) + 2
    case Scalar(v) => Size(v)
    case Braced(_, es, _) => ElementsSize(es) + 2
  }

  function ElementsSize<A>(es: Elements<A>): nat {
    match es
    case NoMore => 0
    case Final(e) => InitializerSize(e)
    case Then(e, _, rest) => InitializerSize(e) + 1 + ElementsSize(rest)
  }

  /** Naming a value and bracing a list add a level; a scalar is as high as its expression. */
  function InitializerHeight<A>(s: Initializer<A>): (h: nat)
    ensures h > 0
  {
    match s
    case Named(_, _, v) => Height(v) + 1
    case Scalar(v) => Height(v)
    case Braced(_, es, _) => ElementsHeight(es) + 1
  }

  function ElementsHeight<A>(es: Elements<A>): nat {
    match es
    case NoMore => 0
    case Final(e) => InitializerHeight(e)
    case Then(e, _, rest) => Max(InitializerHeight(e), ElementsHeight(rest))
  }

  // ---- the grammar ------------------------------------------------------------------------------

  predicate IsInitializer(s: Initializer<PtxToken>) {
    match s
    case Named(m, e, v) => IsIdentifierToken(m.kind) && e.kind.Eq? && IsExpression(v, 0)
    case Scalar(v) => IsExpression(v, 0)
    case Braced(l, es, r) => l.kind.LBrace? && IsElements(es) && r.kind.RBrace?
  }

  predicate IsElements(es: Elements<PtxToken>) {
    match es
    case NoMore => true
    case Final(e) => IsInitializer(e)
    case Then(e, c, rest) => IsInitializer(e) && c.kind.Comma? && IsElements(rest)
  }

  /** A token that cannot continue the initializer; after a lone name an equals sign would make it a member. */
  predicate Ends(s: Initializer<PtxToken>, kind: TokenKind) {
    match s
    case Named(_, _, _) => Stops(kind, 0)
    case Scalar(v) => Stops(kind, 0) && !(v.Symbol? && kind.Eq?)
    case Braced(_, _, _) => true
  }

  // ---- the parse --------------------------------------------------------------------------------

  datatype ParsedInitializer = ParsedInitializer(initializer: Initializer<nat>, height: nat)

  datatype ParsedElements = ParsedElements(elements: Elements<nat>, height: nat)

  function ParseInitializer(toks: seq<PtxToken>, pos: nat, budget: nat): (r: Parse<ParsedInitializer>)
    ensures r.Parsed? ==> r.pos > pos
    ensures r.pos >= pos
    decreases budget, 1, Remaining(toks, pos)
  {
    if budget == 0 then Failed(DepthLimit(pos), pos)
    else if IsIdentifierToken(TokenAt(toks, pos).kind) && TokenAt(toks, pos + 1).kind.Eq? then
      match ParseExpression(toks, pos + 2, 0, budget - 1)
      case Failed(d, at) => Failed(d, at)
      case Parsed(v, next) => Parsed(ParsedInitializer(Named(pos, pos + 1, v.expression), v.height + 1), next)
    else if !TokenAt(toks, pos).kind.LBrace? then
      match ParseExpression(toks, pos, 0, budget)
      case Failed(d, at) => Failed(d, at)
      case Parsed(v, next) => Parsed(ParsedInitializer(Scalar(v.expression), v.height), next)
    else
      match ParseElements(toks, pos, pos + 1, budget)
      case Failed(d, at) => Failed(d, at)
      case Parsed(es, next) =>
        match Expect(toks, next, RBrace)
        case Failed(d, at) => Failed(d, at)
        case Parsed(close, after) => Parsed(ParsedInitializer(Braced(pos, es.elements, close), es.height + 1), after)
  }

  /** The elements from `pos` on of the list opened at `open`. */
  function ParseElements(toks: seq<PtxToken>, open: nat, pos: nat, budget: nat): (r: Parse<ParsedElements>)
    requires budget > 0
    ensures r.pos >= pos
    decreases budget, 0, Remaining(toks, pos)
  {
    if TokenAt(toks, pos).kind.RBrace? then Parsed(ParsedElements(NoMore, 0), pos)
    else if budget == 1 then Failed(DepthLimit(open), pos)
    else
      match ParseInitializer(toks, pos, budget - 1)
      case Failed(d, at) => Failed(d, at)
      case Parsed(e, next) =>
        if !TokenAt(toks, next).kind.Comma? then Parsed(ParsedElements(Final(e.initializer), e.height), next)
        else
          match ParseElements(toks, open, next + 1, budget)
          case Failed(d, at) => Failed(d, at)
          case Parsed(rest, after) =>
            Parsed(ParsedElements(Then(e.initializer, next, rest.elements), Max(e.height, rest.height)), after)
  }
}
