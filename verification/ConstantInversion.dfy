/** Parsing and printing constant expressions are exact inverses, under an exact height budget. */
module ConstantInversion {
  import opened Tokens
  import opened ConstantGrammar

  /** The tree of token ids that a written expression becomes when its first token has id `pos`. */
  function Numbered(s: ConstantExpression<PtxToken>, pos: nat): ConstantExpression<nat> {
    match s
    case Literal(_) => Literal(pos)
    case Symbol(_) => Symbol(pos)
    case Parenthesized(_, inner, _) => Parenthesized(pos, Numbered(inner, pos + 1), pos + 1 + Size(inner))
    case Call(c, _, a, _) =>
      Call(Numbered(c, pos), pos + Size(c), Numbered(a, pos + Size(c) + 1), pos + Size(c) + 1 + Size(a))
    case Cast(_, _, _, o) => Cast(pos, pos + 1, pos + 2, Numbered(o, pos + 3))
    case UnaryOperation(_, o) => UnaryOperation(pos, Numbered(o, pos + 1))
    case BinaryOperation(l, _, r) => BinaryOperation(Numbered(l, pos), pos + Size(l), Numbered(r, pos + Size(l) + 1))
    case Conditional(c, _, t, _, f) =>
      Conditional(Numbered(c, pos), pos + Size(c), Numbered(t, pos + Size(c) + 1), pos + Size(c) + 1 + Size(t),
                  Numbered(f, pos + Size(c) + 2 + Size(t)))
  }

  /** The written expression stands in the token stream at `pos`. */
  ghost predicate Laid(toks: seq<PtxToken>, pos: nat, s: ConstantExpression<PtxToken>)
    decreases s
  {
    match s
    case Literal(l) => TokenAt(toks, pos) == l
    case Symbol(n) => TokenAt(toks, pos) == n
    case Parenthesized(l, inner, r) =>
      TokenAt(toks, pos) == l && Laid(toks, pos + 1, inner) && TokenAt(toks, pos + 1 + Size(inner)) == r
    case Call(c, l, a, r) =>
      && Laid(toks, pos, c) && TokenAt(toks, pos + Size(c)) == l
      && Laid(toks, pos + Size(c) + 1, a) && TokenAt(toks, pos + Size(c) + 1 + Size(a)) == r
    case Cast(l, t, r, o) =>
      && TokenAt(toks, pos) == l && TokenAt(toks, pos + 1) == t && TokenAt(toks, pos + 2) == r
      && Laid(toks, pos + 3, o)
    case UnaryOperation(op, o) => TokenAt(toks, pos) == op && Laid(toks, pos + 1, o)
    case BinaryOperation(l, op, r) =>
      Laid(toks, pos, l) && TokenAt(toks, pos + Size(l)) == op && Laid(toks, pos + Size(l) + 1, r)
    case Conditional(c, q, t, k, f) =>
      && Laid(toks, pos, c) && TokenAt(toks, pos + Size(c)) == q
      && Laid(toks, pos + Size(c) + 1, t) && TokenAt(toks, pos + Size(c) + 1 + Size(t)) == k
      && Laid(toks, pos + Size(c) + 2 + Size(t), f)
  }

  function Measured(s: ConstantExpression<PtxToken>, pos: nat): ParsedConstantExpression {
    ParsedConstantExpression(Numbered(s, pos), pos, Height(s))
  }

  /** The precedence of the outermost binary operation; anything tighter counts as the highest. */
  function TopPrecedence(s: ConstantExpression<PtxToken>): int {
    if s.BinaryOperation? then ConstantBinaryPrecedence(s.operator.kind) else 10
  }

  // ---- completeness: a written expression parses back -------------------------------------------

  /** A primary begins with a literal, a name or a parenthesis. */
  lemma {:induction false} PrimaryFirst(toks: seq<PtxToken>, pos: nat, s: ConstantExpression<PtxToken>)
    requires IsPrimary(s) && Laid(toks, pos, s)
    ensures var kind := TokenAt(toks, pos).kind; IsConstantLiteral(kind) || kind.Ident? || kind.LParen?
  {
    hide IsUnary, IsBinary, IsExpression;
    if s.Call? {
      PrimaryFirst(toks, pos, s.callee);
    }
  }

  lemma {:induction false} BinaryFirst(toks: seq<PtxToken>, pos: nat, s: ConstantExpression<PtxToken>, p: nat)
    requires IsBinary(s, p) && Laid(toks, pos, s)
    ensures var kind := TokenAt(toks, pos).kind; !kind.DotIdent? && !kind.LBrace? && !kind.RBrace?
  {
    hide IsPrimary, IsExpression;
    match s
    case BinaryOperation(l, op, _) => BinaryFirst(toks, pos, l, ConstantBinaryPrecedence(op.kind));
    case Cast(_, _, _, _) =>
    case UnaryOperation(_, _) =>
    case _ => PrimaryFirst(toks, pos, s);
  }

  /** No expression begins with a dotted token, so a parenthesis is never mistaken for a cast; nor with a brace. */
  lemma ExpressionFirst(toks: seq<PtxToken>, pos: nat, s: ConstantExpression<PtxToken>, p: nat)
    requires IsExpression(s, p) && Laid(toks, pos, s)
    ensures var kind := TokenAt(toks, pos).kind; !kind.DotIdent? && !kind.LBrace? && !kind.RBrace?
  {
    hide IsPrimary, IsUnary, IsBinary;
    BinaryFirst(toks, pos, if s.Conditional? then s.condition else s, p);
  }

  lemma Weaken(s: ConstantExpression<PtxToken>, p: nat, q: nat)
    requires IsBinary(s, p) && q <= TopPrecedence(s)
    ensures IsBinary(s, q)
  {
  }

  // ---- one constructor's measures ---------------------------------------------------------------

  lemma ParenthesizedShape(toks: seq<PtxToken>, pos: nat, s: ConstantExpression<PtxToken>)
    requires s.Parenthesized?
    ensures var inner := s.expression;
      && Size(s) == Size(inner) + 2 && Height(s) == Height(inner) + 1
      && Numbered(s, pos) == Parenthesized(pos, Numbered(inner, pos + 1), pos + 1 + Size(inner))
      && (Laid(toks, pos, s) <==>
            && TokenAt(toks, pos) == s.leftParen && Laid(toks, pos + 1, inner)
            && TokenAt(toks, pos + 1 + Size(inner)) == s.rightParen)
      && (IsPrimary(s) <==> s.leftParen.kind.LParen? && IsExpression(inner, 0) && s.rightParen.kind.RParen?)
  {
    hide IsExpression, TokenAt;
  }

  lemma CallShape(toks: seq<PtxToken>, pos: nat, s: ConstantExpression<PtxToken>)
    requires s.Call?
    ensures var open := pos + Size(s.callee);
      && Size(s) == Size(s.callee) + Size(s.argument) + 2 && Height(s) == Max(Height(s.callee), Height(s.argument)) + 1
      && Numbered(s, pos) == Call(Numbered(s.callee, pos), open, Numbered(s.argument, open + 1), open + 1 + Size(s.argument))
      && (Laid(toks, pos, s) <==>
            && Laid(toks, pos, s.callee) && TokenAt(toks, open) == s.leftParen
            && Laid(toks, open + 1, s.argument) && TokenAt(toks, open + 1 + Size(s.argument)) == s.rightParen)
      && (IsPrimary(s) <==>
            && IsPrimary(s.callee) && s.leftParen.kind.LParen? && IsExpression(s.argument, 0) && s.rightParen.kind.RParen?)
  {
    hide IsExpression, TokenAt;
  }

  lemma BinaryShape(toks: seq<PtxToken>, pos: nat, s: ConstantExpression<PtxToken>)
    requires s.BinaryOperation?
    ensures var op := pos + Size(s.left);
      && Size(s) == Size(s.left) + Size(s.right) + 1 && Height(s) == Max(Height(s.left), Height(s.right)) + 1
      && Numbered(s, pos) == BinaryOperation(Numbered(s.left, pos), op, Numbered(s.right, op + 1))
      && (Laid(toks, pos, s) <==>
            Laid(toks, pos, s.left) && TokenAt(toks, op) == s.operator && Laid(toks, op + 1, s.right))
  {
    hide TokenAt;
  }

  lemma ConditionalShape(toks: seq<PtxToken>, pos: nat, s: ConstantExpression<PtxToken>)
    requires s.Conditional?
    ensures var question := pos + Size(s.condition);
      var colon := question + 1 + Size(s.trueExpression);
      && Size(s) == Size(s.condition) + Size(s.trueExpression) + Size(s.falseExpression) + 2
      && Height(s) == Max(Height(s.condition), Max(Height(s.trueExpression), Height(s.falseExpression))) + 1
      && Numbered(s, pos) == Conditional(Numbered(s.condition, pos), question, Numbered(s.trueExpression, question + 1), colon,
                                         Numbered(s.falseExpression, colon + 1))
      && (Laid(toks, pos, s) <==>
            && Laid(toks, pos, s.condition) && TokenAt(toks, question) == s.question
            && Laid(toks, question + 1, s.trueExpression) && TokenAt(toks, colon) == s.colon
            && Laid(toks, colon + 1, s.falseExpression))
  {
    hide TokenAt;
  }

  // ---- single steps of the parse ----------------------------------------------------------------

  lemma ParenthesizedStep(toks: seq<PtxToken>, pos: nat, b: nat, inner: ParsedConstantExpression, next: nat)
    requires b > 1 && TokenAt(toks, pos).kind.LParen? && !TokenAt(toks, pos + 1).kind.DotIdent?
    requires ParseExpression(toks, pos + 1, 0, b - 1) == Parsed(inner, next) && TokenAt(toks, next).kind.RParen?
    ensures ParsePrimary(toks, pos, b)
      == CallTail(toks, ParsedConstantExpression(Parenthesized(pos, inner.expression, next), pos, inner.height + 1), next + 1, b)
  {
    hide ParseExpression, CallTail, ParseCast;
  }

  lemma CallStep(toks: seq<PtxToken>, callee: ParsedConstantExpression, pos: nat, b: nat,
                 a: ParsedConstantExpression, next: nat)
    requires TokenAt(toks, pos).kind.LParen? && callee.height < b && a.height < b
    requires ParseExpression(toks, pos + 1, 0, b - 1) == Parsed(a, next) && TokenAt(toks, next).kind.RParen?
    ensures CallTail(toks, callee, pos, b)
      == CallTail(toks, ParsedConstantExpression(Call(callee.expression, pos, a.expression, next), callee.first,
                                                 Max(callee.height, a.height) + 1), next + 1, b)
  {
    hide ParseExpression;
  }

  lemma BinaryStep(toks: seq<PtxToken>, left: ParsedConstantExpression, pos: nat, p: nat, b: nat,
                   right: ParsedConstantExpression, next: nat)
    requires ConstantBinaryPrecedence(TokenAt(toks, pos).kind) >= p && left.height < b && right.height < b
    requires ParseExpression(toks, pos + 1, ConstantBinaryPrecedence(TokenAt(toks, pos).kind) + 1, b - 1) == Parsed(right, next)
    ensures BinaryTail(toks, left, pos, p, b)
      == BinaryTail(toks, ParsedConstantExpression(BinaryOperation(left.expression, pos, right.expression), left.first,
                                                   Max(left.height, right.height) + 1), next, p, b)
  {
    hide ParseExpression, ConditionalTail, ConstantBinaryPrecedence;
  }

  lemma ConditionalStep(toks: seq<PtxToken>, left: ParsedConstantExpression, pos: nat, b: nat,
                        t: ParsedConstantExpression, colon: nat, f: ParsedConstantExpression, next: nat)
    requires TokenAt(toks, pos).kind.Question? && left.height < b && t.height < b && f.height < b
    requires ParseExpression(toks, pos + 1, 0, b - 1) == Parsed(t, colon) && TokenAt(toks, colon).kind.Colon?
    requires ParseExpression(toks, colon + 1, 0, b - 1) == Parsed(f, next)
    ensures BinaryTail(toks, left, pos, 0, b)
      == Parsed(ParsedConstantExpression(Conditional(left.expression, pos, t.expression, colon, f.expression), left.first,
                                         Max(left.height, Max(t.height, f.height)) + 1), next)
  {
    hide ParseExpression;
  }

  lemma CastStep(toks: seq<PtxToken>, pos: nat, b: nat, o: ParsedConstantExpression, next: nat)
    requires b > 1 && TokenAt(toks, pos).kind.LParen? && IsCastType(TokenAt(toks, pos + 1))
    requires TokenAt(toks, pos + 2).kind.RParen? && ParseUnary(toks, pos + 3, b - 1) == Parsed(o, next)
    ensures ParsePrimary(toks, pos, b)
      == Parsed(ParsedConstantExpression(Cast(pos, pos + 1, pos + 2, o.expression), pos, o.height + 1), next)
  {
    hide ParseExpression, ParseUnary, CallTail;
  }

  lemma UnaryStep(toks: seq<PtxToken>, pos: nat, b: nat)
    requires b > 0
    ensures IsConstantUnaryOperator(TokenAt(toks, pos).kind) && b > 1 ==>
      match ParseUnary(toks, pos + 1, b - 1)
      case Failed(_, _) => ParseUnary(toks, pos, b).Failed?
      case Parsed(o, next) =>
        ParseUnary(toks, pos, b) == Parsed(ParsedConstantExpression(UnaryOperation(pos, o.expression), pos, o.height + 1), next)
    ensures IsConstantUnaryOperator(TokenAt(toks, pos).kind) && b == 1 ==> ParseUnary(toks, pos, b).Failed?
    ensures !IsConstantUnaryOperator(TokenAt(toks, pos).kind) ==> ParseUnary(toks, pos, b) == ParsePrimary(toks, pos, b)
  {
    hide ParsePrimary;
  }

  // ---- completeness: a written expression parses back -------------------------------------------

  lemma LeafReaches(toks: seq<PtxToken>, pos: nat, s: ConstantExpression<PtxToken>, b: nat)
    requires IsPrimary(s) && Laid(toks, pos, s) && b > 0 && (s.Literal? || s.Symbol?)
    ensures ParsePrimary(toks, pos, b) == CallTail(toks, Measured(s, pos), pos + Size(s), b)
  {
    hide IsExpression, ParseExpression, ParseCast, CallTail;
  }

  lemma PrimaryKinds(s: ConstantExpression<PtxToken>)
    requires IsPrimary(s)
    ensures s.Literal? || s.Symbol? || s.Parenthesized? || s.Call?
  {
    hide IsExpression;
  }

  lemma {:induction false} PrimaryReaches(toks: seq<PtxToken>, pos: nat, s: ConstantExpression<PtxToken>, b: nat)
    requires IsPrimary(s) && Laid(toks, pos, s) && Height(s) <= b
    ensures ParsePrimary(toks, pos, b) == CallTail(toks, Measured(s, pos), pos + Size(s), b)
    decreases s, 0
  {
    hide IsPrimary, IsUnary, IsBinary, IsExpression, Laid, Numbered, Size, Height;
    hide ParsePrimary, ParseExpression, ParseUnary, ParseCast, CallTail, BinaryTail, ConditionalTail;
    PrimaryKinds(s);
    if s.Parenthesized? {
      var inner := s.expression;
      ParenthesizedShape(toks, pos, s);
      ExpressionFirst(toks, pos + 1, inner, 0);
      ExpressionComplete(toks, pos + 1, inner, 0, b - 1);
      ParenthesizedStep(toks, pos, b, Measured(inner, pos + 1), pos + 1 + Size(inner));
    } else if s.Call? {
      var open := pos + Size(s.callee);
      CallShape(toks, pos, s);
      PrimaryReaches(toks, pos, s.callee, b);
      ExpressionComplete(toks, open + 1, s.argument, 0, b - 1);
      CallStep(toks, Measured(s.callee, pos), open, b, Measured(s.argument, open + 1), open + 1 + Size(s.argument));
    } else {
      LeafReaches(toks, pos, s, b);
    }
  }

  lemma CallTailStops(toks: seq<PtxToken>, callee: ParsedConstantExpression, pos: nat, b: nat)
    requires b > 0 && !TokenAt(toks, pos).kind.LParen?
    ensures CallTail(toks, callee, pos, b) == Parsed(callee, pos)
  {
    hide ParseExpression;
  }

  lemma {:induction false} UnaryComplete(toks: seq<PtxToken>, pos: nat, s: ConstantExpression<PtxToken>, b: nat)
    requires IsUnary(s) && Laid(toks, pos, s) && Height(s) <= b
    requires !TokenAt(toks, pos + Size(s)).kind.LParen?
    ensures ParseUnary(toks, pos, b) == Parsed(Measured(s, pos), pos + Size(s))
    decreases s, 1
  {
    hide IsPrimary, IsBinary, IsExpression, ParseExpression, ParseUnary, ParsePrimary, ParseCast, CallTail, BinaryTail;
    UnaryStep(toks, pos, b);
    if s.Literal? || s.Symbol? || s.Parenthesized? || s.Call? {
      hide Laid, Numbered, Size, Height, IsUnary;
      UnaryIsPrimary(s);
      PrimaryReaches(toks, pos, s, b);
      PrimaryFirst(toks, pos, s);
      CallTailStops(toks, Measured(s, pos), pos + Size(s), b);
      return;
    }
    match s
    case Cast(_, _, _, o) =>
      UnaryComplete(toks, pos + 3, o, b - 1);
      CastStep(toks, pos, b, Measured(o, pos + 3), pos + 3 + Size(o));
    case UnaryOperation(_, o) =>
      UnaryComplete(toks, pos + 1, o, b - 1);
    case _ =>
  }

  lemma UnaryIsPrimary(s: ConstantExpression<PtxToken>)
    requires IsUnary(s) && (s.Literal? || s.Symbol? || s.Parenthesized? || s.Call?)
    ensures IsPrimary(s)
  {
    hide IsBinary, IsExpression;
  }

  /** After the operands parsed so far, a token of lower precedence leaves them as they are. */
  lemma BinaryStops(toks: seq<PtxToken>, left: ParsedConstantExpression, pos: nat, p: nat, b: nat)
    requires b > 0 && Stops(TokenAt(toks, pos).kind, p)
    ensures BinaryTail(toks, left, pos, p, b) == Parsed(left, pos)
  {
    hide ParseExpression;
  }

  lemma ExpressionStarts(toks: seq<PtxToken>, pos: nat, p: nat, b: nat)
    requires b > 0
    ensures match ParseUnary(toks, pos, b)
      case Failed(_, _) => ParseExpression(toks, pos, p, b).Failed?
      case Parsed(left, next) => ParseExpression(toks, pos, p, b) == BinaryTail(toks, left, next, p, b)
  {
    hide ParseUnary, BinaryTail;
  }

  lemma BinaryParts(s: ConstantExpression<PtxToken>, p: nat)
    requires IsBinary(s, p)
    ensures !s.Conditional? && IsExpression(s, p)
    ensures s.BinaryOperation? ==>
      var q := ConstantBinaryPrecedence(s.operator.kind);
      q >= p && q <= TopPrecedence(s) && q > 0 && IsBinary(s.left, q) && q <= TopPrecedence(s.left) && IsBinary(s.right, q + 1)
    ensures !s.BinaryOperation? ==> IsUnary(s)
  {
    hide IsPrimary, IsUnary;
  }

  lemma ExpressionParts(s: ConstantExpression<PtxToken>, p: nat)
    requires IsExpression(s, p)
    ensures s.Conditional? ==>
      && p == 0 && IsBinary(s.condition, 0) && TopPrecedence(s.condition) >= 0 && s.question.kind.Question?
      && IsExpression(s.trueExpression, 0) && s.colon.kind.Colon? && IsExpression(s.falseExpression, 0)
    ensures !s.Conditional? ==> IsBinary(s, p) && (s.BinaryOperation? ==> TopPrecedence(s) >= p)
  {
    hide IsPrimary, IsUnary;
  }

  lemma {:induction false} BinaryReaches(toks: seq<PtxToken>, pos: nat, s: ConstantExpression<PtxToken>, p: nat, b: nat)
    requires IsBinary(s, p) && Laid(toks, pos, s) && Height(s) <= b
    requires !TokenAt(toks, pos + Size(s)).kind.LParen?
    requires ConstantBinaryPrecedence(TokenAt(toks, pos + Size(s)).kind) <= TopPrecedence(s)
    ensures ParseExpression(toks, pos, p, b) == BinaryTail(toks, Measured(s, pos), pos + Size(s), p, b)
    decreases s, 2
  {
    hide IsPrimary, IsUnary, IsBinary, IsExpression, ParseExpression, ParseUnary, BinaryTail, ConstantBinaryPrecedence;
    BinaryParts(s, p);
    if s.BinaryOperation? {
      BinaryShape(toks, pos, s);
      hide Laid, Numbered, Size, Height;
      var l, r, op := s.left, s.right, pos + Size(s.left);
      var q := ConstantBinaryPrecedence(s.operator.kind);
      Weaken(l, q, p);
      OperatorIsNoParen(s.operator.kind);
      BinaryReaches(toks, pos, l, p, b);
      BinaryParts(r, q + 1);
      ExpressionComplete(toks, op + 1, r, q + 1, b - 1);
      BinaryStep(toks, Measured(l, pos), op, p, b, Measured(r, op + 1), op + 1 + Size(r));
    } else {
      UnaryComplete(toks, pos, s, b);
      ExpressionStarts(toks, pos, p, b);
    }
  }

  lemma OperatorIsNoParen(kind: TokenKind)
    ensures ConstantBinaryPrecedence(kind) > 0 ==> !kind.LParen?
  {
  }

  /** Every grammatical expression within the budget, followed by a token that cannot extend it, parses back to itself. */
  lemma {:induction false} ExpressionComplete(toks: seq<PtxToken>, pos: nat, s: ConstantExpression<PtxToken>, p: nat, b: nat)
    requires IsExpression(s, p) && Laid(toks, pos, s) && Height(s) <= b
    requires Stops(TokenAt(toks, pos + Size(s)).kind, p)
    ensures ParseExpression(toks, pos, p, b) == Parsed(Measured(s, pos), pos + Size(s))
    decreases s, 3
  {
    hide IsPrimary, IsUnary, IsBinary, IsExpression, Laid, Numbered, Size, Height, ParseExpression, BinaryTail;
    ExpressionParts(s, p);
    if s.Conditional? {
      var c, t, f := s.condition, s.trueExpression, s.falseExpression;
      var question, colon := pos + Size(c), pos + Size(c) + 1 + Size(t);
      ConditionalShape(toks, pos, s);
      BinaryReaches(toks, pos, c, 0, b);
      ExpressionComplete(toks, question + 1, t, 0, b - 1);
      ExpressionComplete(toks, colon + 1, f, 0, b - 1);
      ConditionalStep(toks, Measured(c, pos), question, b, Measured(t, question + 1), colon, Measured(f, colon + 1),
        colon + 1 + Size(f));
    } else {
      BinaryReaches(toks, pos, s, p, b);
      BinaryStops(toks, Measured(s, pos), pos + Size(s), p, b);
    }
  }

  // ---- soundness: whatever parses is a grammatical expression -----------------------------------

  lemma {:induction false} ExpressionSound(toks: seq<PtxToken>, pos: nat, p: nat, b: nat)
    returns (s: ConstantExpression<PtxToken>)
    requires ParseExpression(toks, pos, p, b).Parsed?
    ensures ParseExpression(toks, pos, p, b) == Parsed(Measured(s, pos), pos + Size(s))
    ensures IsExpression(s, p) && Laid(toks, pos, s) && Height(s) <= b && Stops(TokenAt(toks, pos + Size(s)).kind, p)
    decreases b, 4, Remaining(toks, pos)
  {
    hide ParseUnary, BinaryTail, IsPrimary, IsExpression;
    var left := UnarySound(toks, pos, b);
    UnaryIsBinary(left, p);
    s := BinaryTailSound(toks, pos, left, p, b);
  }

  lemma UnaryIsBinary(s: ConstantExpression<PtxToken>, p: nat)
    requires IsUnary(s)
    ensures IsBinary(s, p) && TopPrecedence(s) == 10
  {
  }

  lemma {:induction false} UnarySound(toks: seq<PtxToken>, pos: nat, b: nat) returns (s: ConstantExpression<PtxToken>)
    requires ParseUnary(toks, pos, b).Parsed?
    ensures ParseUnary(toks, pos, b) == Parsed(Measured(s, pos), pos + Size(s))
    ensures IsUnary(s) && Laid(toks, pos, s) && Height(s) <= b && !TokenAt(toks, pos + Size(s)).kind.LParen?
    decreases b, 3, Remaining(toks, pos)
  {
    hide ParsePrimary, IsPrimary, IsBinary, IsExpression, ParseExpression, BinaryTail, ConditionalTail, CallTail, ParseCast;
    if IsConstantUnaryOperator(TokenAt(toks, pos).kind) {
      var o := UnarySound(toks, pos + 1, b - 1);
      s := UnaryOperation(TokenAt(toks, pos), o);
    } else {
      s := PrimarySound(toks, pos, b);
    }
  }

  /** What a successful primary consists of. */
  lemma PrimaryInverts(toks: seq<PtxToken>, pos: nat, b: nat)
    requires ParsePrimary(toks, pos, b).Parsed?
    ensures b > 0
    ensures var first := TokenAt(toks, pos).kind;
      if IsConstantLiteral(first) then
        ParsePrimary(toks, pos, b) == CallTail(toks, ParsedConstantExpression(Literal(pos), pos, 1), pos + 1, b)
      else if first.Ident? then
        ParsePrimary(toks, pos, b) == CallTail(toks, ParsedConstantExpression(Symbol(pos), pos, 1), pos + 1, b)
      else
        && first.LParen? && b > 1
        && if IsCastType(TokenAt(toks, pos + 1)) then
             TokenAt(toks, pos + 2).kind.RParen? && ParseUnary(toks, pos + 3, b - 1).Parsed?
           else
             var inner := ParseExpression(toks, pos + 1, 0, b - 1);
             inner.Parsed? && TokenAt(toks, inner.pos).kind.RParen?
  {
    hide ParseExpression, ParseUnary, CallTail;
  }

  lemma ParenthesizedAny(toks: seq<PtxToken>, pos: nat, b: nat)
    requires ParsePrimary(toks, pos, b).Parsed? && TokenAt(toks, pos).kind.LParen? && !IsCastType(TokenAt(toks, pos + 1))
    ensures b > 1 && ParseExpression(toks, pos + 1, 0, b - 1).Parsed?
    ensures var inner := ParseExpression(toks, pos + 1, 0, b - 1);
      ParsePrimary(toks, pos, b)
        == CallTail(toks, ParsedConstantExpression(Parenthesized(pos, inner.value.expression, inner.pos), pos,
                                                   inner.value.height + 1), inner.pos + 1, b)
  {
    hide ParseExpression, ParseUnary, CallTail, ParseCast;
  }

  lemma {:induction false} PrimarySound(toks: seq<PtxToken>, pos: nat, b: nat) returns (s: ConstantExpression<PtxToken>)
    requires ParsePrimary(toks, pos, b).Parsed?
    ensures ParsePrimary(toks, pos, b) == Parsed(Measured(s, pos), pos + Size(s))
    ensures IsUnary(s) && Laid(toks, pos, s) && Height(s) <= b && !TokenAt(toks, pos + Size(s)).kind.LParen?
    decreases b, 2, Remaining(toks, pos)
  {
    hide IsPrimary, IsUnary, IsBinary, IsExpression, Laid, Numbered, Size, Height;
    hide ParsePrimary, ParseExpression, ParseUnary, ParseCast, CallTail, BinaryTail, ConditionalTail;
    var first := TokenAt(toks, pos);
    PrimaryInverts(toks, pos, b);
    if IsConstantLiteral(first.kind) || first.kind.Ident? {
      var leaf := if IsConstantLiteral(first.kind) then Literal(first) else Symbol(first);
      LeafShape(toks, pos, leaf);
      s := CallTailSound(toks, pos, leaf, b);
      PrimaryIsUnary(s);
    } else if IsCastType(TokenAt(toks, pos + 1)) {
      var o := UnarySound(toks, pos + 3, b - 1);
      s := Cast(first, TokenAt(toks, pos + 1), TokenAt(toks, pos + 2), o);
      CastStep(toks, pos, b, Measured(o, pos + 3), pos + 3 + Size(o));
      CastShape(toks, pos, s);
    } else {
      var inner := ExpressionSound(toks, pos + 1, 0, b - 1);
      var parenthesized := Parenthesized(first, inner, TokenAt(toks, pos + 1 + Size(inner)));
      ParenthesizedShape(toks, pos, parenthesized);
      ParenthesizedAny(toks, pos, b);
      s := CallTailSound(toks, pos, parenthesized, b);
      PrimaryIsUnary(s);
    }
  }

  lemma LeafShape(toks: seq<PtxToken>, pos: nat, s: ConstantExpression<PtxToken>)
    requires s.Literal? || s.Symbol?
    ensures Size(s) == 1 && Height(s) == 1
    ensures s.Literal? ==>
      && Numbered(s, pos) == Literal(pos)
      && (Laid(toks, pos, s) <==> TokenAt(toks, pos) == s.literal) && (IsPrimary(s) <==> IsConstantLiteral(s.literal.kind))
    ensures s.Symbol? ==>
      && Numbered(s, pos) == Symbol(pos)
      && (Laid(toks, pos, s) <==> TokenAt(toks, pos) == s.name) && (IsPrimary(s) <==> s.name.kind.Ident?)
  {
  }

  lemma CastShape(toks: seq<PtxToken>, pos: nat, s: ConstantExpression<PtxToken>)
    requires s.Cast?
    ensures Size(s) == Size(s.operand) + 3 && Height(s) == Height(s.operand) + 1
    ensures Numbered(s, pos) == Cast(pos, pos + 1, pos + 2, Numbered(s.operand, pos + 3))
    ensures Laid(toks, pos, s) <==>
      && TokenAt(toks, pos) == s.leftParen && TokenAt(toks, pos + 1) == s.typ && TokenAt(toks, pos + 2) == s.rightParen
      && Laid(toks, pos + 3, s.operand)
    ensures IsUnary(s) <==>
      s.leftParen.kind.LParen? && IsCastType(s.typ) && s.rightParen.kind.RParen? && IsUnary(s.operand)
  {
    hide IsPrimary, TokenAt;
  }

  lemma PrimaryIsUnary(s: ConstantExpression<PtxToken>)
    requires IsPrimary(s)
    ensures IsUnary(s)
  {
    hide IsExpression;
  }

  /** An application that parses has a closed argument within the budget. */
  lemma CallInverts(toks: seq<PtxToken>, callee: ParsedConstantExpression, pos: nat, b: nat)
    requires b > 0 && TokenAt(toks, pos).kind.LParen? && CallTail(toks, callee, pos, b).Parsed?
    ensures callee.height < b
    ensures var a := ParseExpression(toks, pos + 1, 0, b - 1); a.Parsed? && TokenAt(toks, a.pos).kind.RParen?
  {
    hide ParseExpression;
  }

  lemma {:induction false} CallTailSound(toks: seq<PtxToken>, pos: nat, callee: ConstantExpression<PtxToken>, b: nat)
    returns (s: ConstantExpression<PtxToken>)
    requires IsPrimary(callee) && Laid(toks, pos, callee) && Height(callee) <= b
    requires CallTail(toks, Measured(callee, pos), pos + Size(callee), b).Parsed?
    ensures CallTail(toks, Measured(callee, pos), pos + Size(callee), b) == Parsed(Measured(s, pos), pos + Size(s))
    ensures IsPrimary(s) && Laid(toks, pos, s) && Height(s) <= b && !TokenAt(toks, pos + Size(s)).kind.LParen?
    decreases b, 0, Remaining(toks, pos + Size(callee))
  {
    hide IsPrimary, IsUnary, IsBinary, IsExpression, Laid, Numbered, Size, Height, IsConstantLiteral;
    hide ParsePrimary, ParseExpression, ParseUnary, ParseCast, CallTail, BinaryTail, ConditionalTail;
    var open := pos + Size(callee);
    if TokenAt(toks, open).kind.LParen? {
      CallInverts(toks, Measured(callee, pos), open, b);
      var a := ExpressionSound(toks, open + 1, 0, b - 1);
      var close := open + 1 + Size(a);
      var call := Call(callee, TokenAt(toks, open), a, TokenAt(toks, close));
      CallShape(toks, pos, call);
      CallStep(toks, Measured(callee, pos), open, b, Measured(a, open + 1), close);
      s := CallTailSound(toks, pos, call, b);
    } else {
      CallTailStops(toks, Measured(callee, pos), open, b);
      s := callee;
    }
  }

  lemma BinaryInverts(toks: seq<PtxToken>, left: ParsedConstantExpression, pos: nat, p: nat, b: nat)
    requires b > 0 && BinaryTail(toks, left, pos, p, b).Parsed?
    ensures var q := ConstantBinaryPrecedence(TokenAt(toks, pos).kind);
      if q >= p then left.height < b && ParseExpression(toks, pos + 1, q + 1, b - 1).Parsed?
      else if p == 0 && TokenAt(toks, pos).kind.Question? then
        var t := ParseExpression(toks, pos + 1, 0, b - 1);
        && left.height < b && t.Parsed? && TokenAt(toks, t.pos).kind.Colon?
        && ParseExpression(toks, t.pos + 1, 0, b - 1).Parsed?
      else true
  {
    hide ParseExpression, ConstantBinaryPrecedence;
  }

  lemma {:induction false} BinaryTailSound(toks: seq<PtxToken>, pos: nat, left: ConstantExpression<PtxToken>, p: nat, b: nat)
    returns (s: ConstantExpression<PtxToken>)
    requires IsBinary(left, p) && Laid(toks, pos, left) && Height(left) <= b
    requires !TokenAt(toks, pos + Size(left)).kind.LParen?
    requires ConstantBinaryPrecedence(TokenAt(toks, pos + Size(left)).kind) <= TopPrecedence(left)
    requires BinaryTail(toks, Measured(left, pos), pos + Size(left), p, b).Parsed?
    ensures BinaryTail(toks, Measured(left, pos), pos + Size(left), p, b) == Parsed(Measured(s, pos), pos + Size(s))
    ensures IsExpression(s, p) && Laid(toks, pos, s) && Height(s) <= b && Stops(TokenAt(toks, pos + Size(s)).kind, p)
    decreases b, 1, Remaining(toks, pos + Size(left))
  {
    hide IsPrimary, IsUnary, IsBinary, IsExpression, Laid, Numbered, Size, Height, ConstantBinaryPrecedence;
    hide ParsePrimary, ParseExpression, ParseUnary, ParseCast, CallTail, BinaryTail, ConditionalTail;
    var at := pos + Size(left);
    var op := TokenAt(toks, at);
    var q := ConstantBinaryPrecedence(op.kind);
    BinaryInverts(toks, Measured(left, pos), at, p, b);
    if q >= p {
      var r := ExpressionSound(toks, at + 1, q + 1, b - 1);
      Weaken(left, p, q);
      var more := BinaryOperation(left, op, r);
      BinaryShape(toks, pos, more);
      BinaryJoins(left, op, r, p);
      BinaryStep(toks, Measured(left, pos), at, p, b, Measured(r, at + 1), at + 1 + Size(r));
      StopsBelow(TokenAt(toks, at + 1 + Size(r)).kind, q);
      OperatorRemains(toks, at);
      s := BinaryTailSound(toks, pos, more, p, b);
    } else if p == 0 && op.kind.Question? {
      s := ConditionalTailSound(toks, pos, left, b);
    } else {
      BinaryStops(toks, Measured(left, pos), at, p, b);
      BinaryParts(left, p);
      s := left;
    }
  }

  lemma {:induction false} ConditionalTailSound(toks: seq<PtxToken>, pos: nat, left: ConstantExpression<PtxToken>, b: nat)
    returns (s: ConstantExpression<PtxToken>)
    requires IsBinary(left, 0) && Laid(toks, pos, left) && Height(left) <= b
    requires TokenAt(toks, pos + Size(left)).kind.Question?
    requires BinaryTail(toks, Measured(left, pos), pos + Size(left), 0, b).Parsed?
    ensures BinaryTail(toks, Measured(left, pos), pos + Size(left), 0, b) == Parsed(Measured(s, pos), pos + Size(s))
    ensures IsExpression(s, 0) && Laid(toks, pos, s) && Height(s) <= b && Stops(TokenAt(toks, pos + Size(s)).kind, 0)
    decreases b, 0, 0
  {
    hide IsPrimary, IsUnary, IsBinary, IsExpression, Laid, Numbered, Size, Height, Stops;
    hide ParsePrimary, ParseExpression, ParseUnary, ParseCast, CallTail, BinaryTail, ConditionalTail;
    var at := pos + Size(left);
    BinaryInverts(toks, Measured(left, pos), at, 0, b);
    var t := ExpressionSound(toks, at + 1, 0, b - 1);
    var f := ExpressionSound(toks, at + 2 + Size(t), 0, b - 1);
    s := Conditional(left, TokenAt(toks, at), t, TokenAt(toks, at + 1 + Size(t)), f);
    ConditionalShape(toks, pos, s);
    ConditionalJoins(s);
    ConditionalStep(toks, Measured(left, pos), at, b, Measured(t, at + 1), at + 1 + Size(t), Measured(f, at + 2 + Size(t)),
      at + 2 + Size(t) + Size(f));
  }

  lemma OperatorRemains(toks: seq<PtxToken>, at: nat)
    requires ConstantBinaryPrecedence(TokenAt(toks, at).kind) >= 0
    ensures at < |toks|
  {
  }

  lemma BinaryJoins(l: ConstantExpression<PtxToken>, op: PtxToken, r: ConstantExpression<PtxToken>, p: nat)
    requires var q := ConstantBinaryPrecedence(op.kind);
      q >= p && IsBinary(l, q) && IsExpression(r, q + 1)
    ensures IsBinary(BinaryOperation(l, op, r), p)
  {
    hide IsPrimary, IsUnary;
  }

  lemma ConditionalJoins(s: ConstantExpression<PtxToken>)
    requires s.Conditional? && IsBinary(s.condition, 0) && s.question.kind.Question?
    requires IsExpression(s.trueExpression, 0) && s.colon.kind.Colon? && IsExpression(s.falseExpression, 0)
    ensures IsExpression(s, 0)
  {
    hide IsPrimary, IsUnary, IsBinary;
  }

  /** A right operand of precedence `q + 1` ends at a token of precedence at most `q`. */
  lemma StopsBelow(kind: TokenKind, q: int)
    requires q >= 0 && Stops(kind, q + 1)
    ensures !kind.LParen? && ConstantBinaryPrecedence(kind) <= q
  {
  }
}
