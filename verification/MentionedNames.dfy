/** Which names an expression, an initializer or an operand mentions, read off the leaves it is written with. */
module MentionedNames {
  import opened Tokens
  import opened LexicalBinding
  import opened BindingPass
  import opened ConstantGrammar
  import opened InitializerGrammar

  /** What a leaf is: a name, a name that is applied, an enumerant given to a member, or something else. */
  datatype Role = Name | Callee | Enumerant | Other

  datatype Leaf<A> = Leaf(leaf: A, role: Role)

  /** An expression's leaves in order, each in its role. */
  function Leaves<A>(e: ConstantExpression<A>): seq<Leaf<A>> {
    match e
    case Literal(l) => [Leaf(l, Other)]
    case Symbol(n) => [Leaf(n, Name)]
    case Parenthesized(l, inner, r) => [Leaf(l, Other)] + Leaves(inner) + [Leaf(r, Other)]
    case Call(c, l, a, r) =>
      (if c.Symbol? then [Leaf(c.name, Callee)] else Leaves(c)) + [Leaf(l, Other)] + Leaves(a) + [Leaf(r, Other)]
    case Cast(l, t, r, o) => [Leaf(l, Other), Leaf(t, Other), Leaf(r, Other)] + Leaves(o)
    case UnaryOperation(op, o) => [Leaf(op, Other)] + Leaves(o)
    case BinaryOperation(l, op, r) => Leaves(l) + [Leaf(op, Other)] + Leaves(r)
    case Conditional(c, q, t, k, f) => Leaves(c) + [Leaf(q, Other)] + Leaves(t) + [Leaf(k, Other)] + Leaves(f)
  }

  function InitializerLeavesInRole<A>(i: Initializer<A>): seq<Leaf<A>>
    decreases i
  {
    match i
    case Named(m, e, v) =>
      [Leaf(m, Other), Leaf(e, Other)] + (if v.Symbol? then [Leaf(v.name, Enumerant)] else Leaves(v))
    case Scalar(v) => Leaves(v)
    case Braced(l, es, r) => [Leaf(l, Other)] + ElementLeaves(es) + [Leaf(r, Other)]
  }

  function ElementLeaves<A>(es: Elements<A>): seq<Leaf<A>>
    decreases es
  {
    match es
    case NoMore => []
    case Final(e) => InitializerLeavesInRole(e)
    case Then(e, c, rest) => InitializerLeavesInRole(e) + [Leaf(c, Other)] + ElementLeaves(rest)
  }

  function Atoms<A>(leaves: seq<Leaf<A>>): (r: seq<A>)
    ensures |r| == |leaves|
  {
    seq(|leaves|, i requires 0 <= i < |leaves| => leaves[i].leaf)
  }

  lemma AtomsBoth<A>(a: seq<Leaf<A>>, b: seq<Leaf<A>>)
    ensures Atoms(a + b) == Atoms(a) + Atoms(b)
  {
  }

  lemma AtomsOne<A>(a: A, role: Role)
    ensures Atoms([Leaf(a, role)]) == [a]
  {
  }

  lemma AtomsThree<A>(a: seq<Leaf<A>>, b: seq<Leaf<A>>, c: seq<Leaf<A>>)
    ensures Atoms(a + b + c) == Atoms(a) + Atoms(b) + Atoms(c)
  {
  }

  /** No leaf is left out or moved. */
  lemma {:induction false} LeavesAreAll<A>(e: ConstantExpression<A>)
    ensures Atoms(Leaves(e)) == Flatten(e)
  {
    hide Atoms;
    match e
    case Literal(l) => AtomsOne(l, Other);
    case Symbol(n) => AtomsOne(n, Name);
    case Parenthesized(l, inner, r) =>
      LeavesAreAll(inner);
      AtomsOne(l, Other);
      AtomsOne(r, Other);
      AtomsThree([Leaf(l, Other)], Leaves(inner), [Leaf(r, Other)]);
    case Call(c, l, a, r) =>
      LeavesAreAll(c);
      LeavesAreAll(a);
      AtomsOne(l, Other);
      AtomsOne(r, Other);
      var callee := if c.Symbol? then [Leaf(c.name, Callee)] else Leaves(c);
      if c.Symbol? {
        AtomsOne(c.name, Callee);
      }
      AtomsBoth(callee, [Leaf(l, Other)]);
      AtomsThree(callee + [Leaf(l, Other)], Leaves(a), [Leaf(r, Other)]);
    case Cast(l, t, r, o) =>
      LeavesAreAll(o);
      AtomsOfThree(l, t, r);
      AtomsBoth([Leaf(l, Other), Leaf(t, Other), Leaf(r, Other)], Leaves(o));
    case UnaryOperation(op, o) =>
      LeavesAreAll(o);
      AtomsOne(op, Other);
      AtomsBoth([Leaf(op, Other)], Leaves(o));
    case BinaryOperation(l, op, r) =>
      LeavesAreAll(l);
      LeavesAreAll(r);
      AtomsOne(op, Other);
      AtomsThree(Leaves(l), [Leaf(op, Other)], Leaves(r));
    case Conditional(c, q, t, k, f) =>
      LeavesAreAll(c);
      LeavesAreAll(t);
      LeavesAreAll(f);
      AtomsOne(q, Other);
      AtomsOne(k, Other);
      AtomsThree(Leaves(c), [Leaf(q, Other)], Leaves(t));
      AtomsThree(Leaves(c) + [Leaf(q, Other)] + Leaves(t), [Leaf(k, Other)], Leaves(f));
  }

  lemma AtomsOfThree<A>(l: A, t: A, r: A)
    ensures Atoms([Leaf(l, Other), Leaf(t, Other), Leaf(r, Other)]) == [l, t, r]
  {
  }

  lemma {:induction false} InitializerLeavesAreAll<A>(i: Initializer<A>)
    ensures Atoms(InitializerLeavesInRole(i)) == FlattenInitializer(i)
    decreases i
  {
    match i
    case Named(_, _, v) => LeavesAreAll(v);
    case Scalar(v) => LeavesAreAll(v);
    case Braced(_, es, _) => ElementLeavesAreAll(es);
  }

  lemma {:induction false} ElementLeavesAreAll<A>(es: Elements<A>)
    ensures Atoms(ElementLeaves(es)) == FlattenElements(es)
    decreases es
  {
    match es
    case NoMore =>
    case Final(e) => InitializerLeavesAreAll(e);
    case Then(e, _, rest) =>
      InitializerLeavesAreAll(e);
      ElementLeavesAreAll(rest);
  }

  // ---- the mentioned names ----------------------------------------------------------------------

  /** Names are mentioned wherever they stand, but to be bound not where `generic` is applied; enumerants never are. */
  predicate Counts(l: Leaf<Identifier>, binding: bool) {
    l.role.Name? || (l.role.Callee? && !(binding && l.leaf.text == "generic"))
  }

  function NamesAmong(leaves: seq<Leaf<Identifier>>, binding: bool): seq<Identifier> {
    if leaves == [] then []
    else
      var last := leaves[|leaves| - 1];
      NamesAmong(leaves[..|leaves| - 1], binding) + (if Counts(last, binding) then [last.leaf] else [])
  }

  lemma {:induction false} NamesAmongBoth(a: seq<Leaf<Identifier>>, b: seq<Leaf<Identifier>>, binding: bool)
    ensures NamesAmong(a + b, binding) == NamesAmong(a, binding) + NamesAmong(b, binding)
    decreases |b|
  {
    if b == [] {
      assert a + b == a;
    } else {
      assert (a + b)[..|a + b| - 1] == a + b[..|b| - 1];
      NamesAmongBoth(a, b[..|b| - 1], binding);
    }
  }

  lemma NamesAmongOne(l: Leaf<Identifier>, binding: bool)
    ensures NamesAmong([l], binding) == if Counts(l, binding) then [l.leaf] else []
  {
    assert [l][..0] == [];
  }

  /** What an expression mentions is exactly the names among its leaves, in order. */
  lemma {:induction false} MentionsAreNames(e: Expression, binding: bool)
    ensures Mentions(e, binding) == NamesAmong(Leaves(e), binding)
  {
    hide NamesAmong;
    match e
    case Literal(l) => NamesAmongOne(Leaf(l, Other), binding);
    case Symbol(n) => NamesAmongOne(Leaf(n, Name), binding);
    case Parenthesized(l, inner, r) =>
      MentionsAreNames(inner, binding);
      Around([Leaf(l, Other)], Leaves(inner), [Leaf(r, Other)], binding);
    case Call(c, l, a, r) =>
      MentionsAreNames(c, binding);
      MentionsAreNames(a, binding);
      var callee := if c.Symbol? then [Leaf(c.name, Callee)] else Leaves(c);
      if c.Symbol? {
        NamesAmongOne(Leaf(c.name, Callee), binding);
        NamesAmongOne(Leaf(c.name, Name), binding);
      }
      NamesAmongBoth(callee, [Leaf(l, Other)], binding);
      NamesAmongOne(Leaf(l, Other), binding);
      Around(callee + [Leaf(l, Other)], Leaves(a), [Leaf(r, Other)], binding);
    case Cast(l, t, r, o) =>
      MentionsAreNames(o, binding);
      Punctuation(l, t, r, binding);
      NamesAmongBoth([Leaf(l, Other), Leaf(t, Other), Leaf(r, Other)], Leaves(o), binding);
    case UnaryOperation(op, o) =>
      MentionsAreNames(o, binding);
      NamesAmongOne(Leaf(op, Other), binding);
      NamesAmongBoth([Leaf(op, Other)], Leaves(o), binding);
    case BinaryOperation(l, op, r) =>
      MentionsAreNames(l, binding);
      MentionsAreNames(r, binding);
      Between(Leaves(l), op, Leaves(r), binding);
    case Conditional(c, q, t, k, f) =>
      MentionsAreNames(c, binding);
      MentionsAreNames(t, binding);
      MentionsAreNames(f, binding);
      Between(Leaves(c), q, Leaves(t), binding);
      Between(Leaves(c) + [Leaf(q, Other)] + Leaves(t), k, Leaves(f), binding);
  }

  lemma Punctuation(l: Identifier, t: Identifier, r: Identifier, binding: bool)
    ensures NamesAmong([Leaf(l, Other), Leaf(t, Other), Leaf(r, Other)], binding) == []
  {
    hide NamesAmong;
    NamesAmongOne(Leaf(l, Other), binding);
    NamesAmongOne(Leaf(t, Other), binding);
    NamesAmongOne(Leaf(r, Other), binding);
    NamesAmongBoth([Leaf(l, Other)], [Leaf(t, Other)], binding);
    NamesAmongBoth([Leaf(l, Other)] + [Leaf(t, Other)], [Leaf(r, Other)], binding);
    assert [Leaf(l, Other), Leaf(t, Other), Leaf(r, Other)] == [Leaf(l, Other)] + [Leaf(t, Other)] + [Leaf(r, Other)];
  }

  lemma Around(before: seq<Leaf<Identifier>>, inner: seq<Leaf<Identifier>>, after: seq<Leaf<Identifier>>, binding: bool)
    requires |after| == 1 && after[0].role.Other?
    ensures |before| == 1 && before[0].role.Other? ==> NamesAmong(before + inner + after, binding) == NamesAmong(inner, binding)
    ensures NamesAmong(before + inner + after, binding) == NamesAmong(before, binding) + NamesAmong(inner, binding)
  {
    hide NamesAmong;
    NamesAmongBoth(before + inner, after, binding);
    NamesAmongBoth(before, inner, binding);
    NamesAmongOne(after[0], binding);
    assert after == [after[0]];
    if |before| == 1 {
      NamesAmongOne(before[0], binding);
      assert before == [before[0]];
    }
  }

  lemma Between(left: seq<Leaf<Identifier>>, operator: Identifier, right: seq<Leaf<Identifier>>, binding: bool)
    ensures NamesAmong(left + [Leaf(operator, Other)] + right, binding) == NamesAmong(left, binding) + NamesAmong(right, binding)
  {
    hide NamesAmong;
    NamesAmongOne(Leaf(operator, Other), binding);
    NamesAmongBoth(left, [Leaf(operator, Other)], binding);
    NamesAmongBoth(left + [Leaf(operator, Other)], right, binding);
  }

  lemma {:induction false} InitializerMentionsAreNames(i: InitializerTree, binding: bool)
    ensures InitializerMentions(i, binding) == NamesAmong(InitializerLeavesInRole(i), binding)
    decreases i
  {
    hide NamesAmong, Mentions;
    match i
    case Named(m, e, v) =>
      MentionsAreNames(v, binding);
      NamesAmongOne(Leaf(m, Other), binding);
      NamesAmongOne(Leaf(e, Other), binding);
      NamesAmongBoth([Leaf(m, Other)], [Leaf(e, Other)], binding);
      assert [Leaf(m, Other), Leaf(e, Other)] == [Leaf(m, Other)] + [Leaf(e, Other)];
      if v.Symbol? {
        NamesAmongOne(Leaf(v.name, Enumerant), binding);
      }
      NamesAmongBoth([Leaf(m, Other), Leaf(e, Other)], if v.Symbol? then [Leaf(v.name, Enumerant)] else Leaves(v), binding);
    case Scalar(v) => MentionsAreNames(v, binding);
    case Braced(l, es, r) =>
      ElementMentionsAreNames(es, binding);
      Around([Leaf(l, Other)], ElementLeaves(es), [Leaf(r, Other)], binding);
  }

  lemma {:induction false} ElementMentionsAreNames(es: Elements<Identifier>, binding: bool)
    ensures ElementMentions(es, binding) == NamesAmong(ElementLeaves(es), binding)
    decreases es
  {
    hide NamesAmong;
    match es
    case NoMore => assert NamesAmong([], binding) == [] by { NoNames(binding); }
    case Final(e) => InitializerMentionsAreNames(e, binding);
    case Then(e, c, rest) =>
      InitializerMentionsAreNames(e, binding);
      ElementMentionsAreNames(rest, binding);
      Between(InitializerLeavesInRole(e), c, ElementLeaves(rest), binding);
  }

  lemma NoNames(binding: bool)
    ensures NamesAmong([], binding) == []
  {
  }

  // ---- names and tokens -------------------------------------------------------------------------

  /** In an expression of the grammar, the leaves that are names are exactly its identifier tokens. */
  lemma {:induction false} NamesAreIdentifiers(s: ConstantExpression<PtxToken>, p: nat)
    requires IsExpression(s, p)
    ensures forall k :: 0 <= k < |Leaves(s)| ==> (Leaves(s)[k].role.Other? <==> !Leaves(s)[k].leaf.kind.Ident?)
    decreases s, 3
  {
    hide IsUnary, IsPrimary;
    match s
    case Conditional(c, _, t, _, f) =>
      BinaryNames(c, 0);
      NamesAreIdentifiers(t, 0);
      NamesAreIdentifiers(f, 0);
    case _ => BinaryNames(s, p);
  }

  lemma {:induction false} BinaryNames(s: ConstantExpression<PtxToken>, p: nat)
    requires IsBinary(s, p)
    ensures forall k :: 0 <= k < |Leaves(s)| ==> (Leaves(s)[k].role.Other? <==> !Leaves(s)[k].leaf.kind.Ident?)
    decreases s, 2
  {
    hide IsPrimary;
    match s
    case BinaryOperation(l, op, r) =>
      BinaryNames(l, ConstantBinaryPrecedence(op.kind));
      BinaryNames(r, ConstantBinaryPrecedence(op.kind) + 1);
    case Conditional(_, _, _, _, _) =>
    case _ => UnaryNames(s);
  }

  lemma {:induction false} UnaryNames(s: ConstantExpression<PtxToken>)
    requires IsUnary(s)
    ensures forall k :: 0 <= k < |Leaves(s)| ==> (Leaves(s)[k].role.Other? <==> !Leaves(s)[k].leaf.kind.Ident?)
    decreases s, 1
  {
    hide IsPrimary;
    match s
    case Cast(_, _, _, o) => UnaryNames(o);
    case UnaryOperation(_, o) => UnaryNames(o);
    case BinaryOperation(_, _, _) =>
    case Conditional(_, _, _, _, _) =>
    case _ => PrimaryNames(s);
  }

  lemma {:induction false} PrimaryNames(s: ConstantExpression<PtxToken>)
    requires IsPrimary(s)
    ensures forall k :: 0 <= k < |Leaves(s)| ==> (Leaves(s)[k].role.Other? <==> !Leaves(s)[k].leaf.kind.Ident?)
    decreases s, 0
  {
    hide IsExpression;
    match s
    case Parenthesized(_, inner, _) => NamesAreIdentifiers(inner, 0);
    case Call(c, _, a, _) =>
      PrimaryNames(c);
      NamesAreIdentifiers(a, 0);
    case _ =>
  }

  // ---- operands ---------------------------------------------------------------------------------

  /** A name an operand is written with, its role there, and whether the sink may stand in its place. */
  datatype Slot = Slot(kind: ReferenceKind, name: Identifier, maySink: bool)

  function PackSlots(elements: seq<VectorElement>): (r: seq<Slot>)
    ensures |r| == |elements|
  {
    seq(|elements|, i requires 0 <= i < |elements| =>
      match elements[i]
      case PlainElement(name) => Slot(InstructionOperand, name, true)
      case MemberElement(base) => Slot(InstructionOperand, base, false))
  }

  function NameSlots(kind: ReferenceKind, names: seq<Identifier>): (r: seq<Slot>)
    ensures |r| == |names|
  {
    seq(|names|, i requires 0 <= i < |names| => Slot(kind, names[i], false))
  }

  /** Each operand form's names in order, with their roles. */
  function Slots(o: Operand): seq<Slot> {
    match o
    case NameOperand(name) => [Slot(InstructionOperand, name, true)]
    case RegisterPredicatePair(dst, predicated) => [Slot(InstructionOperand, dst, true), Slot(Predicate, predicated, true)]
    case VectorPack(elements) => PackSlots(elements)
    case ExpressionOperand(expression) => NameSlots(InstructionOperand, NamesAmong(Leaves(expression), true))
    case OrderedUse(use, _) => [Slot(use.kind, use.name, false)]
    case OtherUses(uses) => seq(|uses|, i requires 0 <= i < |uses| => Slot(uses[i].kind, uses[i].name, false))
  }

  /** The names that are references: all but the sink where it may stand. */
  function Filled(slots: seq<Slot>): seq<Use> {
    if slots == [] then []
    else
      var last := slots[|slots| - 1];
      Filled(slots[..|slots| - 1]) + (if last.maySink && last.name.text == "_" then [] else [Use(last.kind, last.name)])
  }

  /** An operand makes exactly the references of its slots, in order and in their roles. */
  lemma OperandFillsSlots(o: Operand)
    ensures OperandUses(o) == Filled(Slots(o))
  {
    hide NamesAmong, Mentions;
    match o
    case NameOperand(name) => FilledOne(Slot(InstructionOperand, name, true));
    case RegisterPredicatePair(dst, predicated) =>
      var a, b := Slot(InstructionOperand, dst, true), Slot(Predicate, predicated, true);
      assert [a, b][..1] == [a];
      FilledOne(a);
    case VectorPack(elements) => PackFilled(elements);
    case ExpressionOperand(expression) =>
      MentionsAreNames(expression, true);
      NamesFilled(InstructionOperand, Mentions(expression, true));
    case OrderedUse(use, _) => FilledOne(Slot(use.kind, use.name, false));
    case OtherUses(uses) => UsesFilled(uses);
  }

  lemma FilledOne(s: Slot)
    ensures Filled([s]) == if s.maySink && s.name.text == "_" then [] else [Use(s.kind, s.name)]
  {
    assert [s][..0] == [];
  }

  lemma {:induction false} PackFilled(elements: seq<VectorElement>)
    ensures ElementUses(elements) == Filled(PackSlots(elements))
  {
    if elements != [] {
      PackFilled(elements[..|elements| - 1]);
      assert PackSlots(elements)[..|elements| - 1] == PackSlots(elements[..|elements| - 1]);
    }
  }

  lemma {:induction false} NamesFilled(kind: ReferenceKind, names: seq<Identifier>)
    ensures UsesOf(kind, names) == Filled(NameSlots(kind, names))
  {
    if names != [] {
      NamesFilled(kind, names[..|names| - 1]);
      assert NameSlots(kind, names)[..|names| - 1] == NameSlots(kind, names[..|names| - 1]);
      assert UsesOf(kind, names) == UsesOf(kind, names[..|names| - 1]) + [Use(kind, names[|names| - 1])];
    }
  }

  lemma {:induction false} UsesFilled(uses: seq<Use>)
    ensures uses == Filled(seq(|uses|, i requires 0 <= i < |uses| => Slot(uses[i].kind, uses[i].name, false)))
  {
    var slots := seq(|uses|, i requires 0 <= i < |uses| => Slot(uses[i].kind, uses[i].name, false));
    if uses != [] {
      var init := uses[..|uses| - 1];
      UsesFilled(init);
      assert slots[..|uses| - 1] == seq(|init|, i requires 0 <= i < |init| => Slot(init[i].kind, init[i].name, false));
    }
  }
}
