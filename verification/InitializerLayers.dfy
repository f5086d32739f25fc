/** The grammar of initializers over the layers of constant expressions, and their parse against it. */
module InitializerLayers {
  import opened Tokens
  import opened ConstantGrammar
  import opened ConstantTheorems
  import opened ConstantLayers
  import opened InitializerGrammar
  import opened InitializerInversion
  import opened InitializerParser

  /** A value, a member with its value, or a list in braces. */
  predicate InInitializer(s: Initializer<PtxToken>) {
    match s
    case Named(m, e, v) => (m.kind.Ident? || m.kind.DotIdent?) && e.kind.Eq? && InExpression(v)
    case Scalar(v) => InExpression(v)
    case Braced(l, es, r) => l.kind.LBrace? && InElements(es) && r.kind.RBrace?
  }

  predicate InElements(es: Elements<PtxToken>) {
    match es
    case NoMore => true
    case Final(e) => InInitializer(e)
    case Then(e, c, rest) => InInitializer(e) && c.kind.Comma? && InElements(rest)
  }

  /** What may follow: after a value nothing that continues it, and after a lone name no equals sign. */
  ghost predicate EndsInitializer(s: Initializer<PtxToken>, kind: TokenKind) {
    match s
    case Named(_, _, _) => EndsLayer(kind, 0)
    case Scalar(v) => EndsLayer(kind, 0) && !(v.Symbol? && kind.Eq?)
    case Braced(_, _, _) => true
  }

  lemma {:induction false} InitializerIsLayer(s: Initializer<PtxToken>)
    ensures IsInitializer(s) <==> InInitializer(s)
  {
    hide IsExpression, InExpression;
    match s
    case Named(_, _, v) => ValueIsLayer(v);
    case Scalar(v) => ValueIsLayer(v);
    case Braced(_, es, _) => ElementsAreLayer(es);
  }

  lemma {:induction false} ElementsAreLayer(es: Elements<PtxToken>)
    ensures IsElements(es) <==> InElements(es)
  {
    match es
    case NoMore =>
    case Final(e) => InitializerIsLayer(e);
    case Then(e, _, rest) =>
      InitializerIsLayer(e);
      ElementsAreLayer(rest);
  }

  lemma ValueIsLayer(v: ConstantExpression<PtxToken>)
    ensures IsExpression(v, 0) <==> InExpression(v)
  {
    hide IsExpression, InExpression;
    ExpressionIsLayer(v, 0);
  }

  lemma EndsIs(s: Initializer<PtxToken>, kind: TokenKind)
    ensures Ends(s, kind) <==> EndsInitializer(s, kind)
  {
    hide Stops, EndsLayer;
    StopsIsEnds(kind, 0);
  }

  /** Tokens written from an initializer parse to it exactly when it is grammatical, nothing continues it, and it is low. */
  lemma InitializerLayerParsesExactlyWhen(toks: seq<PtxToken>, pos: nat, b: nat, s: Initializer<PtxToken>)
    requires TokensFrom(toks, pos, InitializerSize(s)) == FlattenInitializer(s)
    ensures ParseInitializer(toks, pos, b) == Parsed(MeasuredInitializer(s, pos), pos + InitializerSize(s))
      <==> && InInitializer(s) && EndsInitializer(s, TokenAt(toks, pos + InitializerSize(s)).kind)
           && InitializerHeight(s) <= b
  {
    hide ParseInitializer, IsInitializer, InInitializer, FlattenInitializer, InitializerSize, InitializerHeight, TokensFrom, Ends,
      EndsInitializer;
    InitializerParsesExactlyWhen(toks, pos, b, s);
    InitializerIsLayer(s);
    EndsIs(s, TokenAt(toks, pos + InitializerSize(s)).kind);
  }

  // ---- numeric operands -------------------------------------------------------------------------

  /** A numeric operand is a whole expression, or, in a narrow position, one of the multiplicative layer; 128 levels at most. */
  lemma OperandIsLayer(e: ConstantExpression<PtxToken>)
    ensures IsExpression(e, BoundaryPrecedence(true)) <==> InExpression(e)
    ensures IsExpression(e, BoundaryPrecedence(false)) <==> InMultiplicative(e)
    ensures MAX_CONSTANT_TREE_DEPTH == 128
  {
    hide IsExpression, InExpression, InMultiplicative;
    ExpressionIsLayer(e, 0);
    ExpressionIsLayer(e, 10);
  }

  /** A register is an identifier spelled with a percent sign, and an immediate a literal or one behind a plus or minus. */
  lemma OperandKinds(t: PtxToken, toks: seq<PtxToken>, e: ConstantExpression<nat>)
    ensures IsRegisterName(t) <==> t.kind.Ident? && "%" <= t.text
    ensures IsSignedLiteral(toks, e) <==>
      match e
      case Literal(_) => true
      case UnaryOperation(op, o) => o.Literal? && (TokenAt(toks, op).kind.Minus? || TokenAt(toks, op).kind.Plus?)
      case _ => false
  {
  }
}
