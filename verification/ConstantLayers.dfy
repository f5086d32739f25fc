/** The grammar of constant expressions written a second time, as layers without precedences, and the parse against it. */
module ConstantLayers {
  import opened Tokens
  import opened ConstantGrammar
  import opened ConstantInversion
  import opened ConstantTheorems

  // ---- the layers -------------------------------------------------------------------------------

  /** A logical or, and at the top level a conditional, whose last branch may be another one. */
  predicate InExpression(e: ConstantExpression<PtxToken>)
    decreases e, 13
  {
    match e
    case Conditional(c, q, t, k, f) =>
      InLogicalOr(c) && q.kind.Question? && InExpression(t) && k.kind.Colon? && InExpression(f)
    case _ => InLogicalOr(e)
  }

  predicate InLogicalOr(e: ConstantExpression<PtxToken>)
    decreases e, 12
  {
    InLogicalAnd(e) || (e.BinaryOperation? && e.operator.kind.PipePipe? && InLogicalOr(e.left) && InLogicalAnd(e.right))
  }

  predicate InLogicalAnd(e: ConstantExpression<PtxToken>)
    decreases e, 11
  {
    InBitOr(e) || (e.BinaryOperation? && e.operator.kind.AmpAmp? && InLogicalAnd(e.left) && InBitOr(e.right))
  }

  predicate InBitOr(e: ConstantExpression<PtxToken>)
    decreases e, 10
  {
    InBitXor(e) || (e.BinaryOperation? && e.operator.kind.Pipe? && InBitOr(e.left) && InBitXor(e.right))
  }

  predicate InBitXor(e: ConstantExpression<PtxToken>)
    decreases e, 9
  {
    InBitAnd(e) || (e.BinaryOperation? && e.operator.kind.Caret? && InBitXor(e.left) && InBitAnd(e.right))
  }

  predicate InBitAnd(e: ConstantExpression<PtxToken>)
    decreases e, 8
  {
    InEquality(e) || (e.BinaryOperation? && e.operator.kind.Amp? && InBitAnd(e.left) && InEquality(e.right))
  }

  predicate InEquality(e: ConstantExpression<PtxToken>)
    decreases e, 7
  {
    || InRelational(e)
    || (e.BinaryOperation? && (e.operator.kind.EqEq? || e.operator.kind.NotEq?)
        && InEquality(e.left) && InRelational(e.right))
  }

  predicate InRelational(e: ConstantExpression<PtxToken>)
    decreases e, 6
  {
    || InShift(e)
    || (&& e.BinaryOperation?
        && (e.operator.kind.Lt? || e.operator.kind.LtEq? || e.operator.kind.Gt? || e.operator.kind.GtEq?)
        && InRelational(e.left) && InShift(e.right))
  }

  predicate InShift(e: ConstantExpression<PtxToken>)
    decreases e, 5
  {
    || InAdditive(e)
    || (e.BinaryOperation? && (e.operator.kind.ShiftLeft? || e.operator.kind.ShiftRight?)
        && InShift(e.left) && InAdditive(e.right))
  }

  predicate InAdditive(e: ConstantExpression<PtxToken>)
    decreases e, 4
  {
    || InMultiplicative(e)
    || (e.BinaryOperation? && (e.operator.kind.Plus? || e.operator.kind.Minus?)
        && InAdditive(e.left) && InMultiplicative(e.right))
  }

  predicate InMultiplicative(e: ConstantExpression<PtxToken>)
    decreases e, 3
  {
    || InPrefixed(e)
    || (&& e.BinaryOperation? && (e.operator.kind.Star? || e.operator.kind.Slash? || e.operator.kind.Percent?)
        && InMultiplicative(e.left) && InPrefixed(e.right))
  }

  /** Signs, complements and casts before an operand; a cast is to a signed or unsigned 64-bit integer. */
  predicate InPrefixed(e: ConstantExpression<PtxToken>)
    decreases e, 2
  {
    match e
    case UnaryOperation(op, o) =>
      (op.kind.Plus? || op.kind.Minus? || op.kind.Exclamation? || op.kind.Tilde?) && InPrefixed(o)
    case Cast(l, t, r, o) =>
      && l.kind.LParen? && t.kind.DotIdent? && (t.text == ".s64" || t.text == ".u64") && r.kind.RParen?
      && InPrefixed(o)
    case _ => InOperand(e)
  }

  /** A literal, a name, a parenthesized expression, or one of these applied to an argument. */
  predicate InOperand(e: ConstantExpression<PtxToken>)
    decreases e, 1
  {
    match e
    case Literal(l) =>
      || l.kind.Decimal? || l.kind.Hex? || l.kind.Binary? || l.kind.F32Hex? || l.kind.F64Hex?
      || l.kind.F64? || l.kind.WarpSz?
    case Symbol(n) => n.kind.Ident?
    case Parenthesized(l, inner, r) => l.kind.LParen? && InExpression(inner) && r.kind.RParen?
    case Call(c, l, a, r) => InOperand(c) && l.kind.LParen? && InExpression(a) && r.kind.RParen?
    case _ => false
  }

  /** The layer an operand of precedence level `p` comes from. */
  predicate InLayer(e: ConstantExpression<PtxToken>, p: nat) {
    match p
    case 0 => InExpression(e)
    case 1 => InLogicalOr(e)
    case 2 => InLogicalAnd(e)
    case 3 => InBitOr(e)
    case 4 => InBitXor(e)
    case 5 => InBitAnd(e)
    case 6 => InEquality(e)
    case 7 => InRelational(e)
    case 8 => InShift(e)
    case 9 => InAdditive(e)
    case 10 => InMultiplicative(e)
    case _ => InPrefixed(e)
  }

  /** The tokens that join two operands of layer `p`. */
  predicate JoinsLayer(kind: TokenKind, p: nat) {
    match p
    case 1 => kind.PipePipe?
    case 2 => kind.AmpAmp?
    case 3 => kind.Pipe?
    case 4 => kind.Caret?
    case 5 => kind.Amp?
    case 6 => kind.EqEq? || kind.NotEq?
    case 7 => kind.Lt? || kind.LtEq? || kind.Gt? || kind.GtEq?
    case 8 => kind.ShiftLeft? || kind.ShiftRight?
    case 9 => kind.Plus? || kind.Minus?
    case 10 => kind.Star? || kind.Slash? || kind.Percent?
    case _ => false
  }

  /** No token that applies, joins or questions an operand of layer `p` or tighter. */
  ghost predicate EndsLayer(kind: TokenKind, p: nat) {
    !kind.LParen? && (p == 0 ==> !kind.Question?) && forall q: nat :: p <= q ==> !JoinsLayer(kind, q)
  }

  // ---- the layers are the grammar ---------------------------------------------------------------

  /** A layer is the next tighter one and, left-recursively, the operations that join it. */
  lemma LayerStep(e: ConstantExpression<PtxToken>, p: nat)
    requires 1 <= p <= 10
    ensures InLayer(e, p) <==>
      || InLayer(e, p + 1)
      || (e.BinaryOperation? && JoinsLayer(e.operator.kind, p) && InLayer(e.left, p) && InLayer(e.right, p + 1))
  {
    hide InPrefixed, InExpression;
  }

  lemma JoinsIsPrecedence(kind: TokenKind, p: nat)
    requires p > 0
    ensures JoinsLayer(kind, p) <==> ConstantBinaryPrecedence(kind) == p
  {
  }

  /** The layer from `p` on that joins an operation, if there is one, is that of its operator. */
  lemma {:induction false} OperationInLayer(e: ConstantExpression<PtxToken>, p: nat)
    requires e.BinaryOperation? && 1 <= p <= 11
    ensures var q := ConstantBinaryPrecedence(e.operator.kind);
      InLayer(e, p) <==> q >= p && InLayer(e.left, q) && InLayer(e.right, q + 1)
    decreases 11 - p
  {
    hide InLayer, ConstantBinaryPrecedence, JoinsLayer;
    if p == 11 {
      NotPrefixed(e);
    } else {
      LayerStep(e, p);
      JoinsIsPrecedence(e.operator.kind, p);
      OperationInLayer(e, p + 1);
    }
  }

  lemma NotPrefixed(e: ConstantExpression<PtxToken>)
    requires e.BinaryOperation? || e.Conditional?
    ensures !InLayer(e, 11)
  {
    assert !InOperand(e);
  }

  /** An expression that joins nothing is in every layer or in none. */
  lemma {:induction false} OperandInLayer(e: ConstantExpression<PtxToken>, p: nat)
    requires !e.BinaryOperation? && 1 <= p <= 11
    ensures InLayer(e, p) <==> InPrefixed(e)
    decreases 11 - p
  {
    hide InPrefixed;
    if p < 11 {
      LayerStep(e, p);
      OperandInLayer(e, p + 1);
    }
  }

  lemma TopLayer(e: ConstantExpression<PtxToken>)
    ensures !e.Conditional? ==> (InLayer(e, 0) <==> InLayer(e, 1))
    ensures e.Conditional? ==>
      (InLayer(e, 0) <==> && InLayer(e.condition, 1) && e.question.kind.Question? && InLayer(e.trueExpression, 0)
                          && e.colon.kind.Colon? && InLayer(e.falseExpression, 0))
  {
    hide InLogicalOr;
  }

  /** The grammar by precedences and the grammar by layers have the same trees, at every level. */
  lemma {:induction false} ExpressionIsLayer(e: ConstantExpression<PtxToken>, p: nat)
    requires p <= 11
    ensures IsExpression(e, p) <==> InLayer(e, p)
    decreases e, 3, 0
  {
    hide IsBinary, InLayer;
    BinaryIsLayer(e, if p == 0 then 1 else p);
    TopLayer(e);
    BinaryAtZero(e);
    if e.Conditional? {
      BinaryIsLayer(e.condition, 1);
      BinaryAtZero(e.condition);
      ExpressionIsLayer(e.trueExpression, 0);
      ExpressionIsLayer(e.falseExpression, 0);
      ConditionalAlone(e, if p == 0 then 1 else p);
    }
  }

  lemma BinaryAtZero(e: ConstantExpression<PtxToken>)
    ensures IsBinary(e, 0) <==> IsBinary(e, 1)
  {
  }

  lemma ConditionalAlone(e: ConstantExpression<PtxToken>, p: nat)
    requires e.Conditional? && 1 <= p <= 11
    ensures !InLayer(e, p) && !IsBinary(e, p)
  {
    OperandInLayer(e, p);
  }

  lemma {:induction false} BinaryIsLayer(e: ConstantExpression<PtxToken>, p: nat)
    requires 1 <= p <= 11
    ensures IsBinary(e, p) <==> InLayer(e, p)
    decreases e, 2, 0
  {
    hide IsUnary, InLayer, InPrefixed, ConstantBinaryPrecedence;
    if e.BinaryOperation? {
      var q := ConstantBinaryPrecedence(e.operator.kind);
      OperationInLayer(e, p);
      if q >= p {
        BinaryIsLayer(e.left, q);
        BinaryIsLayer(e.right, q + 1);
      }
    } else {
      OperandInLayer(e, p);
      if e.Conditional? {
        ConditionalAlone(e, p);
      } else {
        UnaryIsPrefixed(e);
      }
    }
  }

  lemma {:induction false} UnaryIsPrefixed(e: ConstantExpression<PtxToken>)
    ensures IsUnary(e) <==> InPrefixed(e)
    decreases e, 1, 0
  {
    hide IsPrimary, InOperand;
    match e
    case Cast(_, _, _, o) => UnaryIsPrefixed(o);
    case UnaryOperation(_, o) => UnaryIsPrefixed(o);
    case BinaryOperation(_, _, _) => NoOperand(e);
    case Conditional(_, _, _, _, _) => NoOperand(e);
    case _ => PrimaryIsOperand(e);
  }

  lemma NoOperand(e: ConstantExpression<PtxToken>)
    requires e.BinaryOperation? || e.Conditional?
    ensures !InOperand(e)
  {
  }

  lemma {:induction false} PrimaryIsOperand(e: ConstantExpression<PtxToken>)
    ensures IsPrimary(e) <==> InOperand(e)
    decreases e, 0, 0
  {
    hide InExpression, IsExpression;
    match e
    case Parenthesized(_, inner, _) => InnerIsLayer(inner);
    case Call(c, _, a, _) =>
      PrimaryIsOperand(c);
      InnerIsLayer(a);
    case _ =>
  }

  lemma {:induction false} InnerIsLayer(e: ConstantExpression<PtxToken>)
    ensures IsExpression(e, 0) <==> InExpression(e)
    decreases e, 4, 0
  {
    hide InExpression, IsExpression;
    ExpressionIsLayer(e, 0);
  }

  lemma StopsIsEnds(kind: TokenKind, p: nat)
    ensures Stops(kind, p) <==> EndsLayer(kind, p)
  {
    hide JoinsLayer, ConstantBinaryPrecedence;
    var q := ConstantBinaryPrecedence(kind);
    forall r: nat ensures JoinsLayer(kind, r) <==> r == q && r > 0 {
      if r > 0 {
        JoinsIsPrecedence(kind, r);
      } else {
        NothingJoinsZero(kind);
      }
    }
    if q >= 0 {
      assert JoinsLayer(kind, q);
    }
  }

  lemma NothingJoinsZero(kind: TokenKind)
    ensures !JoinsLayer(kind, 0)
  {
  }

  // ---- the main result --------------------------------------------------------------------------

  /**
   * Tokens written from a tree parse to that tree, at level `p`, exactly when the tree belongs to that layer, what
   * follows cannot continue it, and it is low enough.
   */
  lemma LayerParsesExactlyWhen(toks: seq<PtxToken>, pos: nat, p: nat, b: nat, s: ConstantExpression<PtxToken>)
    requires p <= 11 && TokensFrom(toks, pos, Size(s)) == Flatten(s)
    ensures ParseExpression(toks, pos, p, b) == Parsed(Measured(s, pos), pos + Size(s))
      <==> InLayer(s, p) && EndsLayer(TokenAt(toks, pos + Size(s)).kind, p) && Height(s) <= b
  {
    hide ParseExpression, IsExpression, InLayer, Flatten, Size, Height, TokensFrom, Stops, EndsLayer;
    ParsesExactlyWhen(toks, pos, p, b, s);
    ExpressionIsLayer(s, p);
    StopsIsEnds(TokenAt(toks, pos + Size(s)).kind, p);
  }

  /** Whatever parses is a tree of the layer, standing there, and followed by a token that cannot continue it. */
  lemma ParsedIsInLayer(toks: seq<PtxToken>, pos: nat, p: nat, b: nat) returns (s: ConstantExpression<PtxToken>)
    requires p <= 11 && ParseExpression(toks, pos, p, b).Parsed?
    ensures var r := ParseExpression(toks, pos, p, b);
      && r == Parsed(Measured(s, pos), pos + Size(s)) && TokensFrom(toks, pos, Size(s)) == Flatten(s)
      && InLayer(s, p) && EndsLayer(TokenAt(toks, r.pos).kind, p)
  {
    hide ParseExpression, IsExpression, InLayer, Flatten, Size, Height, TokensFrom, Stops, EndsLayer, Laid;
    s := ExpressionSound(toks, pos, p, b);
    LaidIsSpan(toks, pos, s);
    ExpressionIsLayer(s, p);
    StopsIsEnds(TokenAt(toks, pos + Size(s)).kind, p);
  }
}
