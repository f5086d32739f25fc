/** The main results about constant expressions, stated over whole token streams. */
module ConstantTheorems {
  import opened Tokens
  import opened ConstantGrammar
  import opened ConstantInversion
  import opened DepthBudgets

  /** The `n` tokens from id `pos` on. */
  function TokensFrom(toks: seq<PtxToken>, pos: nat, n: nat): seq<PtxToken> {
    seq(n, i requires 0 <= i < n => TokenAt(toks, pos + i))
  }

  /** The consecutive ids from `pos` on. */
  function Ids(pos: nat, n: nat): seq<nat> {
    seq(n, i requires 0 <= i < n => pos + i)
  }

  lemma {:induction false} FlattenSize<A>(e: ConstantExpression<A>)
    ensures |Flatten(e)| == Size(e)
  {
    match e
    case Literal(_) =>
    case Symbol(_) =>
    case Parenthesized(_, inner, _) => FlattenSize(inner);
    case Call(c, _, a, _) => FlattenSize(c); FlattenSize(a);
    case Cast(_, _, _, o) => FlattenSize(o);
    case UnaryOperation(_, o) => FlattenSize(o);
    case BinaryOperation(l, _, r) => FlattenSize(l); FlattenSize(r);
    case Conditional(c, _, t, _, f) => FlattenSize(c); FlattenSize(t); FlattenSize(f);
  }

  lemma Joined<T>(a: seq<T>, b: seq<T>, c: seq<T>, d: seq<T>)
    requires |a| == |c|
    ensures a + b == c + d <==> a == c && b == d
  {
    assert (a + b)[..|a|] == a && (a + b)[|a|..] == b;
    assert (c + d)[..|a|] == c && (c + d)[|a|..] == d;
  }

  lemma SpanSplit(toks: seq<PtxToken>, pos: nat, m: nat, n: nat)
    ensures TokensFrom(toks, pos, m + n) == TokensFrom(toks, pos, m) + TokensFrom(toks, pos + m, n)
    ensures TokensFrom(toks, pos, 1) == [TokenAt(toks, pos)]
  {
  }

  /** A stretch of tokens is a subexpression, one more token and the rest exactly when its parts are. */
  lemma SpanParts(toks: seq<PtxToken>, pos: nat, a: seq<PtxToken>, t: PtxToken, rest: seq<PtxToken>)
    ensures TokensFrom(toks, pos, |a| + 1 + |rest|) == a + [t] + rest
      <==> && TokensFrom(toks, pos, |a|) == a && TokenAt(toks, pos + |a|) == t
           && TokensFrom(toks, pos + |a| + 1, |rest|) == rest
  {
    hide TokensFrom;
    SpanSplit(toks, pos, |a| + 1, |rest|);
    SpanSplit(toks, pos, |a|, 1);
    SpanSplit(toks, pos + |a|, 1, 0);
    SpanSize(toks, pos, |a| + 1);
    SpanSize(toks, pos, |a|);
    Joined(TokensFrom(toks, pos, |a| + 1), TokensFrom(toks, pos + |a| + 1, |rest|), a + [t], rest);
    Joined(TokensFrom(toks, pos, |a|), [TokenAt(toks, pos + |a|)], a, [t]);
  }

  lemma SpanSize(toks: seq<PtxToken>, pos: nat, n: nat)
    ensures |TokensFrom(toks, pos, n)| == n
  {
  }

  /** A written expression stands at `pos` exactly when its tokens do. */
  lemma {:induction false} LaidIsSpan(toks: seq<PtxToken>, pos: nat, s: ConstantExpression<PtxToken>)
    ensures Laid(toks, pos, s) <==> TokensFrom(toks, pos, Size(s)) == Flatten(s)
    decreases s
  {
    hide Laid, Size, Flatten, TokensFrom, TokenAt, Numbered, Height, IsPrimary, IsUnary, IsExpression;
    FlattenSize(s);
    FlattenShape(s);
    FlattenOperation(s);
    if s.Parenthesized? {
      LaidIsSpan(toks, pos + 1, s.expression);
      FlattenSize(s.expression);
      ParenthesizedShape(toks, pos, s);
      SpanParts(toks, pos, [], s.leftParen, Flatten(s.expression) + [s.rightParen]);
      SpanParts(toks, pos + 1, Flatten(s.expression), s.rightParen, []);
      EmptySpan(toks, pos);
      EmptySpan(toks, pos + 2 + Size(s.expression));
    } else if s.Call? {
      var open := pos + Size(s.callee);
      LaidIsSpan(toks, pos, s.callee);
      LaidIsSpan(toks, open + 1, s.argument);
      FlattenSize(s.callee);
      FlattenSize(s.argument);
      CallShape(toks, pos, s);
      SpanParts(toks, pos, Flatten(s.callee), s.leftParen, Flatten(s.argument) + [s.rightParen]);
      SpanParts(toks, open + 1, Flatten(s.argument), s.rightParen, []);
      EmptySpan(toks, open + 2 + Size(s.argument));
    } else if s.Cast? {
      LaidIsSpan(toks, pos + 3, s.operand);
      FlattenSize(s.operand);
      CastShape(toks, pos, s);
      SpanParts(toks, pos, [], s.leftParen, [s.typ] + ([s.rightParen] + Flatten(s.operand)));
      SpanParts(toks, pos + 1, [], s.typ, [s.rightParen] + Flatten(s.operand));
      SpanParts(toks, pos + 2, [], s.rightParen, Flatten(s.operand));
      EmptySpan(toks, pos);
      EmptySpan(toks, pos + 1);
      EmptySpan(toks, pos + 2);
    } else if s.UnaryOperation? {
      LaidIsSpan(toks, pos + 1, s.operand);
      FlattenSize(s.operand);
      UnaryShape(toks, pos, s);
      SpanParts(toks, pos, [], s.operator, Flatten(s.operand));
      EmptySpan(toks, pos);
    } else if s.BinaryOperation? {
      LaidIsSpan(toks, pos, s.left);
      LaidIsSpan(toks, pos + Size(s.left) + 1, s.right);
      FlattenSize(s.left);
      FlattenSize(s.right);
      BinaryShape(toks, pos, s);
      SpanParts(toks, pos, Flatten(s.left), s.operator, Flatten(s.right));
    } else if s.Conditional? {
      var question := pos + Size(s.condition);
      var colon := question + 1 + Size(s.trueExpression);
      LaidIsSpan(toks, pos, s.condition);
      LaidIsSpan(toks, question + 1, s.trueExpression);
      LaidIsSpan(toks, colon + 1, s.falseExpression);
      FlattenSize(s.condition);
      FlattenSize(s.trueExpression);
      FlattenSize(s.falseExpression);
      ConditionalShape(toks, pos, s);
      SpanParts(toks, pos, Flatten(s.condition), s.question,
        Flatten(s.trueExpression) + [s.colon] + Flatten(s.falseExpression));
      SpanParts(toks, question + 1, Flatten(s.trueExpression), s.colon, Flatten(s.falseExpression));
    } else {
      LeafShape(toks, pos, s);
      SpanSplit(toks, pos, 1, 0);
    }
  }

  lemma EmptySpan(toks: seq<PtxToken>, pos: nat)
    ensures TokensFrom(toks, pos, 0) == []
  {
  }

  lemma UnaryShape(toks: seq<PtxToken>, pos: nat, s: ConstantExpression<PtxToken>)
    requires s.UnaryOperation?
    ensures Size(s) == Size(s.operand) + 1 && Height(s) == Height(s.operand) + 1
    ensures Numbered(s, pos) == UnaryOperation(pos, Numbered(s.operand, pos + 1))
    ensures Laid(toks, pos, s) <==> TokenAt(toks, pos) == s.operator && Laid(toks, pos + 1, s.operand)
  {
    hide TokenAt;
  }

  /** Flattening, regrouped so that each constructor is a part, a token and a rest. */
  lemma FlattenShape<A>(s: ConstantExpression<A>)
    ensures s.Literal? ==> Flatten(s) == [s.literal]
    ensures s.Symbol? ==> Flatten(s) == [s.name]
    ensures s.Parenthesized? ==> Flatten(s) == [s.leftParen] + (Flatten(s.expression) + [s.rightParen])
    ensures s.Call? ==> Flatten(s) == Flatten(s.callee) + [s.leftParen] + (Flatten(s.argument) + [s.rightParen])
    ensures s.Cast? ==> Flatten(s) == [s.leftParen] + ([s.typ] + ([s.rightParen] + Flatten(s.operand)))
  {
  }

  lemma FlattenOperation<A>(s: ConstantExpression<A>)
    ensures s.UnaryOperation? ==> Flatten(s) == [s.operator] + Flatten(s.operand)
    ensures s.BinaryOperation? ==> Flatten(s) == Flatten(s.left) + [s.operator] + Flatten(s.right)
    ensures s.Conditional? ==>
      Flatten(s) == Flatten(s.condition) + [s.question] + (Flatten(s.trueExpression) + [s.colon] + Flatten(s.falseExpression))
  {
  }

  lemma IdsParts(pos: nat, m: nat, n: nat)
    ensures Ids(pos, m + 1 + n) == Ids(pos, m) + [pos + m] + Ids(pos + m + 1, n)
    ensures Ids(pos, 0) == []
  {
  }

  /** A parsed tree's leaves, in tree order, are exactly the consumed token ids. */
  lemma {:induction false} LeavesAreConsumedIds(s: ConstantExpression<PtxToken>, pos: nat)
    ensures Flatten(Numbered(s, pos)) == Ids(pos, Size(s))
    decreases s
  {
    hide Laid, Size, Flatten, Ids, TokenAt, Numbered, Height, IsPrimary, IsUnary, IsExpression;
    FlattenShape(Numbered(s, pos));
    FlattenOperation(Numbered(s, pos));
    IdsParts(pos, 0, 0);
    if s.Parenthesized? {
      ParenthesizedShape([], pos, s);
      LeavesAreConsumedIds(s.expression, pos + 1);
      IdsParts(pos, 0, Size(s.expression) + 1);
      IdsParts(pos + 1, Size(s.expression), 0);
      IdsParts(pos + 2 + Size(s.expression), 0, 0);
    } else if s.Call? {
      var open := pos + Size(s.callee);
      CallShape([], pos, s);
      LeavesAreConsumedIds(s.callee, pos);
      LeavesAreConsumedIds(s.argument, open + 1);
      IdsParts(pos, Size(s.callee), Size(s.argument) + 1);
      IdsParts(open + 1, Size(s.argument), 0);
      IdsParts(open + 2 + Size(s.argument), 0, 0);
    } else if s.Cast? {
      CastShape([], pos, s);
      LeavesAreConsumedIds(s.operand, pos + 3);
      IdsParts(pos, 0, Size(s.operand) + 2);
      IdsParts(pos + 1, 0, Size(s.operand) + 1);
      IdsParts(pos + 1, 0, 0);
      IdsParts(pos + 2, 0, Size(s.operand));
      IdsParts(pos + 2, 0, 0);
    } else if s.UnaryOperation? {
      UnaryShape([], pos, s);
      LeavesAreConsumedIds(s.operand, pos + 1);
      IdsParts(pos, 0, Size(s.operand));
    } else if s.BinaryOperation? {
      BinaryShape([], pos, s);
      LeavesAreConsumedIds(s.left, pos);
      LeavesAreConsumedIds(s.right, pos + Size(s.left) + 1);
      IdsParts(pos, Size(s.left), Size(s.right));
    } else if s.Conditional? {
      var question := pos + Size(s.condition);
      var colon := question + 1 + Size(s.trueExpression);
      ConditionalShape([], pos, s);
      LeavesAreConsumedIds(s.condition, pos);
      LeavesAreConsumedIds(s.trueExpression, question + 1);
      LeavesAreConsumedIds(s.falseExpression, colon + 1);
      IdsParts(pos, Size(s.condition), Size(s.trueExpression) + 1 + Size(s.falseExpression));
      IdsParts(question + 1, Size(s.trueExpression), Size(s.falseExpression));
    } else {
      LeafShape([], pos, s);
      IdsParts(pos + 1, 0, 0);
    }
  }

  lemma HeightShape<A>(s: ConstantExpression<A>)
    ensures match s
      case Literal(_) => Height(s) == 1
      case Symbol(_) => Height(s) == 1
      case Parenthesized(_, inner, _) => Height(s) == Height(inner) + 1
      case Call(c, _, a, _) => Height(s) == Max(Height(c), Height(a)) + 1
      case Cast(_, _, _, o) => Height(s) == Height(o) + 1
      case UnaryOperation(_, o) => Height(s) == Height(o) + 1
      case BinaryOperation(l, _, r) => Height(s) == Max(Height(l), Height(r)) + 1
      case Conditional(c, _, t, _, f) => Height(s) == Max(Height(c), Max(Height(t), Height(f))) + 1
  {
  }

  /** Numbering keeps the height: the height recorded while parsing is the height of the parsed tree. */
  lemma {:induction false} NumberedHeight(s: ConstantExpression<PtxToken>, pos: nat)
    ensures Height(Numbered(s, pos)) == Height(s)
    decreases s
  {
    hide Laid, Size, Numbered, Height, IsPrimary, IsUnary, IsExpression;
    HeightShape(s);
    HeightShape(Numbered(s, pos));
    if s.Parenthesized? {
      ParenthesizedShape([], pos, s);
      NumberedHeight(s.expression, pos + 1);
    } else if s.Call? {
      CallShape([], pos, s);
      NumberedHeight(s.callee, pos);
      NumberedHeight(s.argument, pos + Size(s.callee) + 1);
    } else if s.Cast? {
      CastShape([], pos, s);
      NumberedHeight(s.operand, pos + 3);
    } else if s.UnaryOperation? {
      UnaryShape([], pos, s);
      NumberedHeight(s.operand, pos + 1);
    } else if s.BinaryOperation? {
      BinaryShape([], pos, s);
      NumberedHeight(s.left, pos);
      NumberedHeight(s.right, pos + Size(s.left) + 1);
    } else if s.Conditional? {
      ConditionalShape([], pos, s);
      NumberedHeight(s.condition, pos);
      NumberedHeight(s.trueExpression, pos + Size(s.condition) + 1);
      NumberedHeight(s.falseExpression, pos + Size(s.condition) + 2 + Size(s.trueExpression));
    } else {
      LeafShape([], pos, s);
    }
  }

  /** A tree is at most as high as it has leaves. */
  lemma {:induction false} HeightAtMostSize<A>(s: ConstantExpression<A>)
    ensures Height(s) <= Size(s)
  {
    match s
    case Literal(_) =>
    case Symbol(_) =>
    case Parenthesized(_, inner, _) => HeightAtMostSize(inner);
    case Call(c, _, a, _) => HeightAtMostSize(c); HeightAtMostSize(a);
    case Cast(_, _, _, o) => HeightAtMostSize(o);
    case UnaryOperation(_, o) => HeightAtMostSize(o);
    case BinaryOperation(l, _, r) => HeightAtMostSize(l); HeightAtMostSize(r);
    case Conditional(c, _, t, _, f) => HeightAtMostSize(c); HeightAtMostSize(t); HeightAtMostSize(f);
  }

  /** Grammatical expressions end on a real token, never on the endless end tokens. */
  lemma {:induction false} EndsInSource(toks: seq<PtxToken>, pos: nat, s: ConstantExpression<PtxToken>, p: nat)
    requires IsExpression(s, p) && Laid(toks, pos, s)
    ensures pos + Size(s) <= |toks|
    decreases s
  {
    hide IsPrimary, IsUnary, IsBinary, IsExpression;
    ExpressionParts(s, p);
    match s
    case Conditional(c, _, t, _, f) => EndsInSource(toks, pos + Size(c) + 2 + Size(t), f, 0);
    case BinaryOperation(l, op, r) =>
      BinaryParts(s, p);
      BinaryParts(r, ConstantBinaryPrecedence(op.kind) + 1);
      EndsInSource(toks, pos + Size(l) + 1, r, ConstantBinaryPrecedence(op.kind) + 1);
    case _ =>
      BinaryParts(s, p);
      UnaryEndsInSource(toks, pos, s);
  }

  lemma {:induction false} UnaryEndsInSource(toks: seq<PtxToken>, pos: nat, s: ConstantExpression<PtxToken>)
    requires IsUnary(s) && Laid(toks, pos, s)
    ensures pos + Size(s) <= |toks|
    decreases s
  {
    hide IsBinary, IsExpression;
    match s
    case Cast(_, _, _, o) => UnaryEndsInSource(toks, pos + 3, o);
    case UnaryOperation(_, o) => UnaryEndsInSource(toks, pos + 1, o);
    case _ =>
  }

  // ---- the main results -------------------------------------------------------------------------

  /** Whatever parses is grammatical, and its leaves in tree order are exactly the consumed span. */
  lemma ParsedIsCanonical(toks: seq<PtxToken>, pos: nat, p: nat, b: nat) returns (s: ConstantExpression<PtxToken>)
    requires ParseExpression(toks, pos, p, b).Parsed?
    ensures var r := ParseExpression(toks, pos, p, b);
      && IsExpression(s, p) && Stops(TokenAt(toks, r.pos).kind, p)
      && r.value.expression == Numbered(s, pos) && r.value.first == pos && r.pos == pos + Size(s)
      && TokensFrom(toks, pos, r.pos - pos) == Flatten(s)
      && Flatten(r.value.expression) == Ids(pos, r.pos - pos)
      && r.value.height == Height(r.value.expression) <= b
  {
    hide ParseExpression, IsExpression, Laid, Numbered, Flatten, Size, Height, TokensFrom, Ids, Stops;
    s := ExpressionSound(toks, pos, p, b);
    LaidIsSpan(toks, pos, s);
    LeavesAreConsumedIds(s, pos);
    NumberedHeight(s, pos);
  }

  /** A written expression standing at `pos` parses to itself exactly when it is grammatical, ended and low enough. */
  lemma ParsesExactlyWhen(toks: seq<PtxToken>, pos: nat, p: nat, b: nat, s: ConstantExpression<PtxToken>)
    requires TokensFrom(toks, pos, Size(s)) == Flatten(s)
    ensures ParseExpression(toks, pos, p, b) == Parsed(Measured(s, pos), pos + Size(s))
      <==> IsExpression(s, p) && Stops(TokenAt(toks, pos + Size(s)).kind, p) && Height(s) <= b
  {
    hide ParseExpression, IsExpression, Laid, Numbered, Flatten, Size, Height, TokensFrom, Stops;
    LaidIsSpan(toks, pos, s);
    if ParseExpression(toks, pos, p, b) == Parsed(Measured(s, pos), pos + Size(s)) {
      var t := ExpressionSound(toks, pos, p, b);
      SameNumbering(toks, pos, s, t);
    }
    if IsExpression(s, p) && Stops(TokenAt(toks, pos + Size(s)).kind, p) && Height(s) <= b {
      ExpressionComplete(toks, pos, s, p, b);
    }
  }

  lemma NumberedKind(s: ConstantExpression<PtxToken>, t: ConstantExpression<PtxToken>, pos: nat)
    requires Numbered(s, pos) == Numbered(t, pos)
    ensures s.Literal? == t.Literal? && s.Symbol? == t.Symbol? && s.Parenthesized? == t.Parenthesized?
    ensures s.Call? == t.Call? && s.Cast? == t.Cast? && s.UnaryOperation? == t.UnaryOperation?
    ensures s.BinaryOperation? == t.BinaryOperation? && s.Conditional? == t.Conditional?
  {
    hide Size;
  }

  /** Expressions at one place with one numbering are the same. */
  lemma {:induction false} SameNumbering(toks: seq<PtxToken>, pos: nat, s: ConstantExpression<PtxToken>,
                                         t: ConstantExpression<PtxToken>)
    requires Laid(toks, pos, s) && Laid(toks, pos, t) && Numbered(s, pos) == Numbered(t, pos)
    ensures s == t
    decreases s
  {
    hide Laid, Size, Numbered, Height, IsPrimary, IsUnary, IsExpression, TokenAt;
    NumberedKind(s, t, pos);
    if s.Parenthesized? {
      ParenthesizedShape(toks, pos, s);
      ParenthesizedShape(toks, pos, t);
      SameNumbering(toks, pos + 1, s.expression, t.expression);
    } else if s.Call? {
      CallShape(toks, pos, s);
      CallShape(toks, pos, t);
      SameNumbering(toks, pos, s.callee, t.callee);
      SameNumbering(toks, pos + Size(s.callee) + 1, s.argument, t.argument);
    } else if s.Cast? {
      CastShape(toks, pos, s);
      CastShape(toks, pos, t);
      SameNumbering(toks, pos + 3, s.operand, t.operand);
    } else if s.UnaryOperation? {
      UnaryShape(toks, pos, s);
      UnaryShape(toks, pos, t);
      SameNumbering(toks, pos + 1, s.operand, t.operand);
    } else if s.BinaryOperation? {
      BinaryShape(toks, pos, s);
      BinaryShape(toks, pos, t);
      SameNumbering(toks, pos, s.left, t.left);
      SameNumbering(toks, pos + Size(s.left) + 1, s.right, t.right);
    } else if s.Conditional? {
      ConditionalShape(toks, pos, s);
      ConditionalShape(toks, pos, t);
      SameNumbering(toks, pos, s.condition, t.condition);
      SameNumbering(toks, pos + Size(s.condition) + 1, s.trueExpression, t.trueExpression);
      SameNumbering(toks, pos + Size(s.condition) + 2 + Size(s.trueExpression), s.falseExpression, t.falseExpression);
    } else {
      LeafShape(toks, pos, s);
      LeafShape(toks, pos, t);
    }
  }

  lemma PrintedSpan(prefix: seq<PtxToken>, printed: seq<PtxToken>, rest: seq<PtxToken>)
    ensures var toks := prefix + printed + rest;
      && TokensFrom(toks, |prefix|, |printed|) == printed
      && TokenAt(toks, |prefix| + |printed|) == TokenAt(rest, 0)
  {
    var toks := prefix + printed + rest;
    forall i | 0 <= i < |printed| ensures TokenAt(toks, |prefix| + i) == printed[i] {
      assert (prefix + printed)[|prefix| + i] == printed[i];
    }
    assert TokensFrom(toks, |prefix|, |printed|) == printed;
  }

  /** Printing an expression anywhere and parsing it there gives it back. */
  lemma PrintParseRoundTrip(prefix: seq<PtxToken>, s: ConstantExpression<PtxToken>, rest: seq<PtxToken>, p: nat, b: nat)
    requires IsExpression(s, p) && Height(s) <= b && Stops(TokenAt(rest, 0).kind, p)
    ensures ParseExpression(prefix + Flatten(s) + rest, |prefix|, p, b)
      == Parsed(Measured(s, |prefix|), |prefix| + Size(s))
  {
    hide ParseExpression, IsExpression, Laid, Numbered, Size, Height, Stops;
    var toks := prefix + Flatten(s) + rest;
    FlattenSize(s);
    PrintedSpan(prefix, Flatten(s), rest);
    LaidIsSpan(toks, |prefix|, s);
    ExpressionComplete(toks, |prefix|, s, p, b);
  }

  /** The budget is exact: it admits the unbudgeted parse if that tree is low enough, and else refuses it for its depth. */
  lemma BudgetExact(toks: seq<PtxToken>, pos: nat, p: nat, b: nat)
    ensures var unbudgeted := ParseExpression(toks, pos, p, Remaining(toks, pos));
      && (ParseExpression(toks, pos, p, b).Parsed? <==> unbudgeted.Parsed? && unbudgeted.value.height <= b)
      && (ParseExpression(toks, pos, p, b).Parsed? ==> ParseExpression(toks, pos, p, b) == unbudgeted)
      && (unbudgeted.Parsed? && unbudgeted.value.height > b ==> ParseExpression(toks, pos, p, b).diagnostic.DepthLimit?)
  {
    hide ParseExpression, IsExpression, Laid, Numbered, Size, Height, Stops;
    var all := Remaining(toks, pos);
    if ParseExpression(toks, pos, p, b).Parsed? {
      var s := ExpressionSound(toks, pos, p, b);
      HeightAtMostSize(s);
      EndsInSource(toks, pos, s, p);
      ExpressionComplete(toks, pos, s, p, all);
    }
    if ParseExpression(toks, pos, p, all).Parsed? {
      var s := ExpressionSound(toks, pos, p, all);
      if Height(s) <= b {
        ExpressionComplete(toks, pos, s, p, b);
      } else {
        TighterExpression(toks, pos, p, b, all);
      }
    }
  }

  /** The second height check, made once an operand has been parsed, never fires. */
  lemma TrailingCheckUnreachable(toks: seq<PtxToken>, pos: nat, p: nat, b: nat, left: nat)
    requires b > 0 && left < b && ParseExpression(toks, pos, p, b - 1).Parsed?
    ensures Max(left, ParseExpression(toks, pos, p, b - 1).value.height) + 1 <= b
  {
    hide ParseExpression, IsExpression, Laid, Numbered, Size, Height, Stops;
    var s := ExpressionSound(toks, pos, p, b - 1);
  }
}
