/** Parsing and printing initializers are exact inverses, under an exact height budget. */
module InitializerInversion {
  import opened Tokens
  import opened ConstantGrammar
  import opened ConstantInversion
  import opened ConstantTheorems
  import opened DepthBudgets
  import opened InitializerGrammar

  function NumberedInitializer(s: Initializer<PtxToken>, pos: nat): Initializer<nat> {
    match s
    case Named(_, _, v) => Named(pos, pos + 1, Numbered(v, pos + 2))
    case Scalar(v) => Scalar(Numbered(v, pos))
    case Braced(_, es, _) => Braced(pos, NumberedElements(es, pos + 1), pos + 1 + ElementsSize(es))
  }

  function NumberedElements(es: Elements<PtxToken>, pos: nat): Elements<nat> {
    match es
    case NoMore => NoMore
    case Final(e) => Final(NumberedInitializer(e, pos))
    case Then(e, _, rest) =>
      Then(NumberedInitializer(e, pos), pos + InitializerSize(e), NumberedElements(rest, pos + InitializerSize(e) + 1))
  }

  ghost predicate LaidInitializer(toks: seq<PtxToken>, pos: nat, s: Initializer<PtxToken>)
    decreases s
  {
    match s
    case Named(m, e, v) => TokenAt(toks, pos) == m && TokenAt(toks, pos + 1) == e && Laid(toks, pos + 2, v)
    case Scalar(v) => Laid(toks, pos, v)
    case Braced(l, es, r) =>
      TokenAt(toks, pos) == l && LaidElements(toks, pos + 1, es) && TokenAt(toks, pos + 1 + ElementsSize(es)) == r
  }

  ghost predicate LaidElements(toks: seq<PtxToken>, pos: nat, es: Elements<PtxToken>)
    decreases es
  {
    match es
    case NoMore => true
    case Final(e) => LaidInitializer(toks, pos, e)
    case Then(e, c, rest) =>
      && LaidInitializer(toks, pos, e) && TokenAt(toks, pos + InitializerSize(e)) == c
      && LaidElements(toks, pos + InitializerSize(e) + 1, rest)
  }

  function MeasuredInitializer(s: Initializer<PtxToken>, pos: nat): ParsedInitializer {
    ParsedInitializer(NumberedInitializer(s, pos), InitializerHeight(s))
  }

  // ---- completeness -----------------------------------------------------------------------------

  /** Where a name is followed by an equals sign, an expression stops at the name. */
  lemma ParseLoneName(toks: seq<PtxToken>, pos: nat, b: nat)
    requires b > 0 && IsIdentifierToken(TokenAt(toks, pos).kind) && TokenAt(toks, pos + 1).kind.Eq?
    ensures match ParseExpression(toks, pos, 0, b)
      case Failed(_, _) => true
      case Parsed(v, next) => v.expression == Symbol(pos)
  {
    hide ParseCast;
    ExpressionStarts(toks, pos, 0, b);
    assert ParseUnary(toks, pos, b) == ParsePrimary(toks, pos, b);
    if TokenAt(toks, pos).kind.Ident? {
      var name := ParsedConstantExpression(Symbol(pos), pos, 1);
      assert ParsePrimary(toks, pos, b) == CallTail(toks, name, pos + 1, b) == Parsed(name, pos + 1);
      assert BinaryTail(toks, name, pos + 1, 0, b) == Parsed(name, pos + 1);
    }
  }

  lemma ScalarIsNotMember(toks: seq<PtxToken>, pos: nat, v: ConstantExpression<PtxToken>)
    requires IsExpression(v, 0) && Laid(toks, pos, v) && Stops(TokenAt(toks, pos + Size(v)).kind, 0)
    requires IsIdentifierToken(TokenAt(toks, pos).kind) && TokenAt(toks, pos + 1).kind.Eq?
    ensures v.Symbol?
  {
    hide ParseExpression, IsExpression, Laid, Stops;
    ExpressionComplete(toks, pos, v, 0, Height(v));
    ParseLoneName(toks, pos, Height(v));
  }

  lemma InitializerFirst(toks: seq<PtxToken>, pos: nat, s: Initializer<PtxToken>)
    requires IsInitializer(s) && LaidInitializer(toks, pos, s)
    ensures !TokenAt(toks, pos).kind.RBrace?
    ensures s.Scalar? ==> !TokenAt(toks, pos).kind.LBrace?
  {
    if s.Scalar? {
      hide IsExpression, Laid;
      ExpressionFirst(toks, pos, s.scalar, 0);
    }
  }

  /** Every grammatical initializer within the budget, followed by a token that cannot extend it, parses back to itself. */
  lemma {:induction false} InitializerComplete(toks: seq<PtxToken>, pos: nat, s: Initializer<PtxToken>, b: nat)
    requires IsInitializer(s) && LaidInitializer(toks, pos, s) && InitializerHeight(s) <= b
    requires Ends(s, TokenAt(toks, pos + InitializerSize(s)).kind)
    ensures ParseInitializer(toks, pos, b) == Parsed(MeasuredInitializer(s, pos), pos + InitializerSize(s))
    decreases s
  {
    hide ParseExpression, ParseElements, IsExpression, Laid, Stops;
    InitializerFirst(toks, pos, s);
    match s
    case Named(_, _, v) => ExpressionComplete(toks, pos + 2, v, 0, b - 1);
    case Scalar(v) =>
      if IsIdentifierToken(TokenAt(toks, pos).kind) && TokenAt(toks, pos + 1).kind.Eq? {
        ScalarIsNotMember(toks, pos, v);
      }
      ExpressionComplete(toks, pos, v, 0, b);
    case Braced(_, es, _) => ElementsComplete(toks, pos, pos + 1, es, b);
  }

  lemma {:induction false} ElementsComplete(toks: seq<PtxToken>, open: nat, pos: nat, es: Elements<PtxToken>, b: nat)
    requires IsElements(es) && LaidElements(toks, pos, es) && ElementsHeight(es) < b
    requires TokenAt(toks, pos + ElementsSize(es)).kind.RBrace?
    ensures ParseElements(toks, open, pos, b)
      == Parsed(ParsedElements(NumberedElements(es, pos), ElementsHeight(es)), pos + ElementsSize(es))
    decreases es
  {
    hide ParseInitializer, IsInitializer, LaidInitializer, InitializerHeight, InitializerSize, NumberedInitializer;
    match es
    case NoMore =>
    case Final(e) =>
      InitializerFirst(toks, pos, e);
      InitializerComplete(toks, pos, e, b - 1);
    case Then(e, _, rest) =>
      var comma := pos + InitializerSize(e);
      InitializerFirst(toks, pos, e);
      InitializerComplete(toks, pos, e, b - 1);
      ElementsComplete(toks, open, comma + 1, rest, b);
  }

  // ---- soundness --------------------------------------------------------------------------------

  lemma {:induction false} InitializerSound(toks: seq<PtxToken>, pos: nat, b: nat) returns (s: Initializer<PtxToken>)
    requires ParseInitializer(toks, pos, b).Parsed?
    ensures ParseInitializer(toks, pos, b) == Parsed(MeasuredInitializer(s, pos), pos + InitializerSize(s))
    ensures IsInitializer(s) && LaidInitializer(toks, pos, s) && InitializerHeight(s) <= b
    ensures Ends(s, TokenAt(toks, pos + InitializerSize(s)).kind)
    decreases b, 1, Remaining(toks, pos)
  {
    hide ParseExpression, ParseElements, IsExpression, Laid, Stops, Size, Height;
    if IsIdentifierToken(TokenAt(toks, pos).kind) && TokenAt(toks, pos + 1).kind.Eq? {
      var v := ExpressionSound(toks, pos + 2, 0, b - 1);
      s := Named(TokenAt(toks, pos), TokenAt(toks, pos + 1), v);
    } else if !TokenAt(toks, pos).kind.LBrace? {
      var v := ExpressionSound(toks, pos, 0, b);
      s := Scalar(v);
      NameAlone(toks, pos, v);
    } else {
      var es := ElementsSound(toks, pos, pos + 1, b);
      s := Braced(TokenAt(toks, pos), es, TokenAt(toks, pos + 1 + ElementsSize(es)));
    }
  }

  lemma NameAlone(toks: seq<PtxToken>, pos: nat, v: ConstantExpression<PtxToken>)
    requires IsExpression(v, 0) && Laid(toks, pos, v)
    ensures v.Symbol? ==> Size(v) == 1 && IsIdentifierToken(TokenAt(toks, pos).kind)
  {
    if v.Symbol? {
      assert IsBinary(v, 0) && IsUnary(v) && IsPrimary(v);
    }
  }

  lemma {:induction false} ElementsSound(toks: seq<PtxToken>, open: nat, pos: nat, b: nat) returns (es: Elements<PtxToken>)
    requires b > 0 && ParseElements(toks, open, pos, b).Parsed?
    ensures ParseElements(toks, open, pos, b)
      == Parsed(ParsedElements(NumberedElements(es, pos), ElementsHeight(es)), pos + ElementsSize(es))
    ensures IsElements(es) && LaidElements(toks, pos, es) && ElementsHeight(es) < b
    decreases b, 0, Remaining(toks, pos)
  {
    hide ParseInitializer, IsInitializer, LaidInitializer;
    if TokenAt(toks, pos).kind.RBrace? {
      es := NoMore;
    } else {
      var e := InitializerSound(toks, pos, b - 1);
      var next := pos + InitializerSize(e);
      if TokenAt(toks, next).kind.Comma? {
        var rest := ElementsSound(toks, open, next + 1, b);
        es := Then(e, TokenAt(toks, next), rest);
      } else {
        es := Final(e);
      }
    }
  }

  // ---- trees and spans --------------------------------------------------------------------------

  lemma {:induction false} InitializerFlattenSize<A>(s: Initializer<A>)
    ensures |FlattenInitializer(s)| == InitializerSize(s)
  {
    match s
    case Named(_, _, v) => FlattenSize(v);
    case Scalar(v) => FlattenSize(v);
    case Braced(_, es, _) => ElementsFlattenSize(es);
  }

  lemma {:induction false} ElementsFlattenSize<A>(es: Elements<A>)
    ensures |FlattenElements(es)| == ElementsSize(es)
  {
    match es
    case NoMore =>
    case Final(e) => InitializerFlattenSize(e);
    case Then(e, _, rest) => InitializerFlattenSize(e); ElementsFlattenSize(rest);
  }

  lemma {:induction false} InitializerIsSpan(toks: seq<PtxToken>, pos: nat, s: Initializer<PtxToken>)
    ensures LaidInitializer(toks, pos, s) <==> TokensFrom(toks, pos, InitializerSize(s)) == FlattenInitializer(s)
    decreases s
  {
    hide Laid, Size, Flatten, TokensFrom, TokenAt;
    EmptySpan(toks, pos);
    match s
    case Named(m, e, v) =>
      FlattenSize(v);
      LaidIsSpan(toks, pos + 2, v);
      EmptySpan(toks, pos + 1);
      SpanParts(toks, pos, [], m, [e] + Flatten(v));
      SpanParts(toks, pos + 1, [], e, Flatten(v));
    case Scalar(v) => LaidIsSpan(toks, pos, v);
    case Braced(l, es, r) =>
      var inside := FlattenElements(es);
      ElementsFlattenSize(es);
      ElementsAreSpan(toks, pos + 1, es);
      SpanParts(toks, pos, [], l, inside + [r]);
      SpanParts(toks, pos + 1, inside, r, []);
      EmptySpan(toks, pos + 2 + |inside|);
  }

  lemma {:induction false} ElementsAreSpan(toks: seq<PtxToken>, pos: nat, es: Elements<PtxToken>)
    ensures LaidElements(toks, pos, es) <==> TokensFrom(toks, pos, ElementsSize(es)) == FlattenElements(es)
    decreases es
  {
    hide LaidInitializer, InitializerSize, FlattenInitializer, TokensFrom, TokenAt;
    match es
    case NoMore => EmptySpan(toks, pos);
    case Final(e) => InitializerIsSpan(toks, pos, e);
    case Then(e, c, rest) =>
      InitializerFlattenSize(e);
      ElementsFlattenSize(rest);
      InitializerIsSpan(toks, pos, e);
      ElementsAreSpan(toks, pos + InitializerSize(e) + 1, rest);
      SpanParts(toks, pos, FlattenInitializer(e), c, FlattenElements(rest));
  }

  lemma {:induction false} InitializerLeaves(s: Initializer<PtxToken>, pos: nat)
    ensures FlattenInitializer(NumberedInitializer(s, pos)) == Ids(pos, InitializerSize(s))
    decreases s
  {
    hide Size, Flatten, Ids, Numbered;
    IdsParts(pos, 0, 0);
    match s
    case Named(_, _, v) =>
      LeavesAreConsumedIds(v, pos + 2);
      IdsParts(pos, 0, Size(v) + 1);
      IdsParts(pos + 1, 0, Size(v));
      IdsParts(pos + 1, 0, 0);
    case Scalar(v) => LeavesAreConsumedIds(v, pos);
    case Braced(_, es, _) =>
      ElementsLeaves(es, pos + 1);
      IdsParts(pos, 0, ElementsSize(es) + 1);
      IdsParts(pos + 1, ElementsSize(es), 0);
      IdsParts(pos + 2 + ElementsSize(es), 0, 0);
  }

  lemma {:induction false} ElementsLeaves(es: Elements<PtxToken>, pos: nat)
    ensures FlattenElements(NumberedElements(es, pos)) == Ids(pos, ElementsSize(es))
    decreases es
  {
    hide InitializerSize, FlattenInitializer, Ids, NumberedInitializer;
    match es
    case NoMore => IdsParts(pos, 0, 0);
    case Final(e) => InitializerLeaves(e, pos);
    case Then(e, _, rest) =>
      InitializerLeaves(e, pos);
      ElementsLeaves(rest, pos + InitializerSize(e) + 1);
      IdsParts(pos, InitializerSize(e), ElementsSize(rest));
  }

  lemma {:induction false} NumberedInitializerHeight(s: Initializer<PtxToken>, pos: nat)
    ensures InitializerHeight(NumberedInitializer(s, pos)) == InitializerHeight(s)
    decreases s
  {
    hide Height, Numbered, Size;
    match s
    case Named(_, _, v) => NumberedHeight(v, pos + 2);
    case Scalar(v) => NumberedHeight(v, pos);
    case Braced(_, es, _) => NumberedElementsHeight(es, pos + 1);
  }

  lemma {:induction false} NumberedElementsHeight(es: Elements<PtxToken>, pos: nat)
    ensures ElementsHeight(NumberedElements(es, pos)) == ElementsHeight(es)
    decreases es
  {
    hide InitializerHeight, NumberedInitializer, InitializerSize;
    match es
    case NoMore =>
    case Final(e) => NumberedInitializerHeight(e, pos);
    case Then(e, _, rest) =>
      NumberedInitializerHeight(e, pos);
      NumberedElementsHeight(rest, pos + InitializerSize(e) + 1);
  }

  lemma {:induction false} SameInitializer(toks: seq<PtxToken>, pos: nat, s: Initializer<PtxToken>, t: Initializer<PtxToken>)
    requires LaidInitializer(toks, pos, s) && LaidInitializer(toks, pos, t)
    requires NumberedInitializer(s, pos) == NumberedInitializer(t, pos)
    ensures s == t
    decreases s
  {
    hide Laid, Numbered, Size, TokenAt;
    match s
    case Named(_, _, v) => SameNumbering(toks, pos + 2, v, t.value);
    case Scalar(v) => SameNumbering(toks, pos, v, t.scalar);
    case Braced(_, es, _) => SameElements(toks, pos + 1, es, t.elements);
  }

  lemma {:induction false} SameElements(toks: seq<PtxToken>, pos: nat, s: Elements<PtxToken>, t: Elements<PtxToken>)
    requires LaidElements(toks, pos, s) && LaidElements(toks, pos, t)
    requires NumberedElements(s, pos) == NumberedElements(t, pos)
    ensures s == t
    decreases s
  {
    hide LaidInitializer, NumberedInitializer, InitializerSize, TokenAt;
    match s
    case NoMore =>
    case Final(e) => SameInitializer(toks, pos, e, t.last);
    case Then(e, _, rest) =>
      SameInitializer(toks, pos, e, t.element);
      SameElements(toks, pos + InitializerSize(e) + 1, rest, t.rest);
  }

  lemma {:induction false} InitializerHeightAtMostSize<A>(s: Initializer<A>)
    ensures InitializerHeight(s) <= InitializerSize(s)
  {
    match s
    case Named(_, _, v) => HeightAtMostSize(v);
    case Scalar(v) => HeightAtMostSize(v);
    case Braced(_, es, _) => ElementsHeightAtMostSize(es);
  }

  lemma {:induction false} ElementsHeightAtMostSize<A>(es: Elements<A>)
    ensures ElementsHeight(es) <= ElementsSize(es)
  {
    match es
    case NoMore =>
    case Final(e) => InitializerHeightAtMostSize(e);
    case Then(e, _, rest) => InitializerHeightAtMostSize(e); ElementsHeightAtMostSize(rest);
  }

  lemma InitializerEndsInSource(toks: seq<PtxToken>, pos: nat, s: Initializer<PtxToken>)
    requires IsInitializer(s) && LaidInitializer(toks, pos, s)
    ensures pos + InitializerSize(s) <= |toks|
  {
    hide IsExpression, Laid, IsElements, LaidElements;
    match s
    case Named(_, _, v) => EndsInSource(toks, pos + 2, v, 0);
    case Scalar(v) => EndsInSource(toks, pos, v, 0);
    case Braced(_, _, _) =>
  }

  // ---- the main results -------------------------------------------------------------------------

  /** Whatever initializer parses is grammatical, its leaves are the consumed span and its height is the true one. */
  lemma ParsedInitializerIsCanonical(toks: seq<PtxToken>, pos: nat, b: nat) returns (s: Initializer<PtxToken>)
    requires ParseInitializer(toks, pos, b).Parsed?
    ensures var r := ParseInitializer(toks, pos, b);
      && IsInitializer(s) && Ends(s, TokenAt(toks, r.pos).kind)
      && r.value.initializer == NumberedInitializer(s, pos) && r.pos == pos + InitializerSize(s)
      && TokensFrom(toks, pos, r.pos - pos) == FlattenInitializer(s)
      && FlattenInitializer(r.value.initializer) == Ids(pos, r.pos - pos)
      && r.value.height == InitializerHeight(r.value.initializer) <= b
  {
    hide ParseInitializer, IsInitializer, LaidInitializer, NumberedInitializer, FlattenInitializer, InitializerSize,
      InitializerHeight, TokensFrom, Ids, Ends;
    s := InitializerSound(toks, pos, b);
    InitializerIsSpan(toks, pos, s);
    InitializerLeaves(s, pos);
    NumberedInitializerHeight(s, pos);
  }

  /** A written initializer standing at `pos` parses to itself exactly when it is grammatical, ended and low enough. */
  lemma InitializerParsesExactlyWhen(toks: seq<PtxToken>, pos: nat, b: nat, s: Initializer<PtxToken>)
    requires TokensFrom(toks, pos, InitializerSize(s)) == FlattenInitializer(s)
    ensures ParseInitializer(toks, pos, b) == Parsed(MeasuredInitializer(s, pos), pos + InitializerSize(s))
      <==> IsInitializer(s) && Ends(s, TokenAt(toks, pos + InitializerSize(s)).kind) && InitializerHeight(s) <= b
  {
    hide ParseInitializer, IsInitializer, LaidInitializer, NumberedInitializer, FlattenInitializer, InitializerSize,
      InitializerHeight, TokensFrom, Ends;
    InitializerIsSpan(toks, pos, s);
    if ParseInitializer(toks, pos, b) == Parsed(MeasuredInitializer(s, pos), pos + InitializerSize(s)) {
      var t := InitializerSound(toks, pos, b);
      SameInitializer(toks, pos, s, t);
    }
    if IsInitializer(s) && Ends(s, TokenAt(toks, pos + InitializerSize(s)).kind) && InitializerHeight(s) <= b {
      InitializerComplete(toks, pos, s, b);
    }
  }

  /** The budget admits the unbudgeted parse if that tree is low enough, and else refuses it for its depth. */
  lemma InitializerBudgetExact(toks: seq<PtxToken>, pos: nat, b: nat)
    ensures var unbudgeted := ParseInitializer(toks, pos, Remaining(toks, pos));
      && (ParseInitializer(toks, pos, b).Parsed? <==> unbudgeted.Parsed? && unbudgeted.value.height <= b)
      && (ParseInitializer(toks, pos, b).Parsed? ==> ParseInitializer(toks, pos, b) == unbudgeted)
      && (unbudgeted.Parsed? && unbudgeted.value.height > b ==> ParseInitializer(toks, pos, b).diagnostic.DepthLimit?)
  {
    hide ParseInitializer, IsInitializer, LaidInitializer, NumberedInitializer, InitializerSize, InitializerHeight, Ends;
    var all := Remaining(toks, pos);
    if ParseInitializer(toks, pos, b).Parsed? {
      var s := InitializerSound(toks, pos, b);
      InitializerHeightAtMostSize(s);
      InitializerEndsInSource(toks, pos, s);
      InitializerComplete(toks, pos, s, all);
    }
    if ParseInitializer(toks, pos, all).Parsed? {
      var s := InitializerSound(toks, pos, all);
      if InitializerHeight(s) <= b {
        InitializerComplete(toks, pos, s, b);
      } else {
        TighterInitializer(toks, pos, b, all);
      }
    }
  }
}
