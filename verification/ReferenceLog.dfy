/** Conservation of references: every written use is bound once, in order, and in which scope each of them is looked up. */
module ReferenceLog {
  import opened Common
  import opened LexicalBinding
  import opened BindingPass
  import opened CollectingPass
  import opened BlockScopes
  import opened BoundModule
  import opened MentionedNames
  import opened DeclarationLog

  /** One reference as far as the module's text decides it: a use and the scope it is looked up in. */
  datatype Made = Made(scope: nat, kind: ReferenceKind, spelling: string, range: SourceRange)

  /** What binding made, resolution aside. */
  function Recorded(references: seq<SymbolReference>): (r: seq<Made>)
    ensures |r| == |references|
  {
    seq(|references|, i requires 0 <= i < |references| =>
      Made(references[i].scope, references[i].kind, references[i].spelling, references[i].range))
  }

  function In(scope: nat, uses: seq<Use>): (r: seq<Made>)
    ensures |r| == |uses|
  {
    seq(|uses|, i requires 0 <= i < |uses| => Made(scope, uses[i].kind, uses[i].name.text, uses[i].name.range))
  }

  // ---- the written uses -------------------------------------------------------------------------

  /** The names in the sizes that are given. */
  function SizeUses(dimensions: seq<Option<Expression>>): seq<Use> {
    if dimensions == [] then []
    else
      var last := dimensions[|dimensions| - 1];
      SizeUses(dimensions[..|dimensions| - 1])
      + (if last.Some? then Filled(NameSlots(ArrayDimension, NamesAmong(Leaves(last.value), true))) else [])
  }

  /** The names in an initializer. */
  function ValueUses(initializer: Option<InitializerTree>): seq<Use> {
    match initializer
    case None => []
    case Some(tree) => Filled(NameSlots(Initializer, NamesAmong(InitializerLeavesInRole(tree), true)))
  }

  /** Declarator by declarator, the sizes and then the initializer. */
  function DeclaratorUses(ds: seq<Declarator>): seq<Use> {
    if ds == [] then []
    else
      var d := ds[|ds| - 1];
      DeclaratorUses(ds[..|ds| - 1]) + SizeUses(d.dimensions) + ValueUses(d.initializer)
  }

  function OperandsUses(operands: seq<Operand>): seq<Use> {
    if operands == [] then []
    else OperandsUses(operands[..|operands| - 1]) + Filled(Slots(operands[|operands| - 1]))
  }

  function ParameterUses(ps: seq<Parameter>): seq<Use> {
    if ps == [] then [] else ParameterUses(ps[..|ps| - 1]) + SizeUses(ps[|ps| - 1].dimensions)
  }

  lemma {:induction false} SizesMentioned(dimensions: seq<Option<Expression>>)
    ensures UsesOf(ArrayDimension, DimensionMentions(dimensions)) == SizeUses(dimensions)
  {
    hide NamesAmong, Filled, Mentions, NameSlots;
    if dimensions != [] {
      var init, last := dimensions[..|dimensions| - 1], dimensions[|dimensions| - 1];
      SizesMentioned(init);
      if last.Some? {
        MentionsAreNames(last.value, true);
        NamesFilled(ArrayDimension, Mentions(last.value, true));
        UsesOfBoth(ArrayDimension, DimensionMentions(init), Mentions(last.value, true));
      }
    }
  }

  lemma UsesOfBoth(kind: ReferenceKind, a: seq<Identifier>, b: seq<Identifier>)
    ensures UsesOf(kind, a + b) == UsesOf(kind, a) + UsesOf(kind, b)
  {
  }

  lemma ValuesMentioned(initializer: Option<InitializerTree>)
    ensures UsesOf(Initializer, OptionalMentions(initializer, true)) == ValueUses(initializer)
  {
    hide NamesAmong, Filled, InitializerMentions, NameSlots;
    if initializer.Some? {
      InitializerMentionsAreNames(initializer.value, true);
      NamesFilled(Initializer, InitializerMentions(initializer.value, true));
    }
  }

  /** The uses that stand in an item itself, not in a block. */
  function DirectUses(item: BodyItem): seq<Use> {
    match item
    case VariablesItem(declaration) => DeclaratorUses(declaration.declarators)
    case InstructionItem(guard, operands) =>
      (if guard.Some? then [Use(Predicate, guard.value)] else []) + OperandsUses(operands)
    case _ => []
  }

  /** All uses of a body in order, those of its blocks where the blocks stand. */
  function BodyUses(body: seq<BodyItem>): seq<Use>
    decreases body
  {
    if body == [] then [] else BodyUses(body[..|body| - 1]) + ItemUses(body[|body| - 1])
  }

  function ItemUses(item: BodyItem): seq<Use>
    decreases item
  {
    if item.BlockItem? then BodyUses(item.body) else DirectUses(item)
  }

  // ---- the references they should make, and those they do make ----------------------------------

  /** Every use in the scope of the block it stands in, the body's blocks being numbered from `next` on. */
  function BodyMade(body: seq<BodyItem>, scope: nat, next: nat): seq<Made>
    decreases body
  {
    if body == [] then []
    else
      var init := body[..|body| - 1];
      BodyMade(init, scope, next) + ItemMade(body[|body| - 1], scope, next + BlockCount(init))
  }

  function ItemMade(item: BodyItem, scope: nat, next: nat): seq<Made>
    decreases item
  {
    if item.BlockItem? then BodyMade(item.body, next, next + 1) else In(scope, DirectUses(item))
  }

  /** Every use in the scope that the search finds: that of the first block of `target` with the range of its own block. */
  function BodyFound(target: seq<BodyItem>, body: seq<BodyItem>, scope: nat, next: nat): seq<Made>
    decreases body
  {
    if body == [] then []
    else BodyFound(target, body[..|body| - 1], scope, next) + ItemFound(target, body[|body| - 1], scope, next)
  }

  function ItemFound(target: seq<BodyItem>, item: BodyItem, scope: nat, next: nat): seq<Made>
    decreases item
  {
    if item.BlockItem? then
      match FirstBlockItem(target, item.range)
      case None => []
      case Some(t) => BodyFound(target[t].body, item.body, BlockId(target, t, next), BlockId(target, t, next) + 1)
    else In(scope, DirectUses(item))
  }

  // ---- the binding pass makes them --------------------------------------------------------------

  /** The reports of those references that name nothing, in order. */
  function UnresolvedAmong(references: seq<SymbolReference>): seq<BindDiagnostic> {
    if references == [] then []
    else
      var last := references[|references| - 1];
      UnresolvedAmong(references[..|references| - 1])
      + (if last.classification == Unresolved then [UnresolvedReference(last.range)] else [])
  }

  lemma {:induction false} UnresolvedBoth(a: seq<SymbolReference>, b: seq<SymbolReference>)
    ensures UnresolvedAmong(a + b) == UnresolvedAmong(a) + UnresolvedAmong(b)
    decreases |b|
  {
    if b == [] {
      assert a + b == a;
    } else {
      assert (a + b)[..|a + b| - 1] == a + b[..|b| - 1];
      UnresolvedBoth(a, b[..|b| - 1]);
    }
  }

  /** `after` has the references of `b` and then these, and reports those of them that name nothing. */
  ghost predicate Makes(b: Binding, after: Binding, made: seq<Made>) {
    && Recorded(after.references) == Recorded(b.references) + made
    && b.references <= after.references
    && after.diagnostics == b.diagnostics + UnresolvedAmong(after.references[|b.references|..])
  }

  lemma MakesBoth(a: Binding, b: Binding, c: Binding, first: seq<Made>, second: seq<Made>)
    requires Makes(a, b, first) && Makes(b, c, second)
    ensures Makes(a, c, first + second)
  {
    hide UnresolvedAmong;
    UnresolvedBoth(b.references[|a.references|..], c.references[|b.references|..]);
    assert c.references[|a.references|..] == b.references[|a.references|..] + c.references[|b.references|..];
  }

  lemma InBoth(scope: nat, first: seq<Use>, second: seq<Use>)
    ensures In(scope, first + second) == In(scope, first) + In(scope, second)
    ensures In(scope, []) == []
  {
  }

  lemma MakesNothing(b: Binding)
    ensures Makes(b, b, [])
  {
    assert b.references[|b.references|..] == [];
  }

  lemma ReferenceMakes(b: Binding, specials: set<string>, scope: nat, kind: ReferenceKind, id: Identifier)
    requires ScopesNest(b.scopes) && scope < |b.scopes|
    ensures Makes(b, AddReference(b, specials, scope, kind, id), In(scope, [Use(kind, id)]))
  {
    hide LinearLookup;
    var after := AddReference(b, specials, scope, kind, id);
    var made := after.references[|b.references|];
    assert after.references[|b.references|..] == [made];
    assert [made][..0] == [];
    assert UnresolvedAmong([made]) == if made.classification == Unresolved then [UnresolvedReference(id.range)] else [];
    assert Recorded(after.references) == Recorded(b.references) + In(scope, [Use(kind, id)]);
  }

  lemma {:induction false} ReferencesMake(b: Binding, specials: set<string>, scope: nat, uses: seq<Use>)
    requires ScopesNest(b.scopes) && scope < |b.scopes|
    ensures Makes(b, AddReferences(b, specials, scope, uses), In(scope, uses))
  {
    hide Makes, In;
    InBoth(scope, [], []);
    if uses == [] {
      MakesNothing(b);
    } else {
      var init, last := uses[..|uses| - 1], uses[|uses| - 1];
      var before := AddReferences(b, specials, scope, init);
      ReferencesMake(b, specials, scope, init);
      ReferenceMakes(before, specials, scope, last.kind, last.name);
      MakesBoth(b, before, AddReferences(b, specials, scope, uses), In(scope, init), In(scope, [last]));
      InBoth(scope, init, [last]);
      assert init + [last] == uses;
    }
  }

  lemma {:induction false} OperandsMake(b: Binding, specials: set<string>, scope: nat, operands: seq<Operand>)
    requires ScopesNest(b.scopes) && scope < |b.scopes|
    ensures Makes(b, BindOperands(b, specials, scope, operands), In(scope, OperandsUses(operands)))
  {
    hide Makes, In, AddReferences, OperandUses, Filled, Slots;
    InBoth(scope, [], []);
    if operands == [] {
      MakesNothing(b);
    } else {
      var init, last := operands[..|operands| - 1], operands[|operands| - 1];
      var before := BindOperands(b, specials, scope, init);
      OperandsMake(b, specials, scope, init);
      ReferencesMake(before, specials, scope, OperandUses(last));
      OperandFillsSlots(last);
      MakesBoth(b, before, BindOperands(b, specials, scope, operands), In(scope, OperandsUses(init)),
        In(scope, OperandUses(last)));
      InBoth(scope, OperandsUses(init), OperandUses(last));
    }
  }

  lemma {:induction false} DeclaratorsMake(b: Binding, specials: set<string>, scope: nat, ds: seq<Declarator>)
    requires ScopesNest(b.scopes) && scope < |b.scopes|
    ensures Makes(b, BindDeclarators(b, specials, scope, ds), In(scope, DeclaratorUses(ds)))
  {
    hide Makes, In, AddReferences, SizeUses, ValueUses, UsesOf, DimensionMentions, OptionalMentions;
    InBoth(scope, [], []);
    if ds == [] {
      MakesNothing(b);
    } else {
      var init, d := ds[..|ds| - 1], ds[|ds| - 1];
      var sizes, values := UsesOf(ArrayDimension, DimensionMentions(d.dimensions)),
        UsesOf(Initializer, OptionalMentions(d.initializer, true));
      var before := BindDeclarators(b, specials, scope, init);
      var sized := BindDimensions(before, specials, scope, d.dimensions);
      DeclaratorsMake(b, specials, scope, init);
      SizesMentioned(d.dimensions);
      ValuesMentioned(d.initializer);
      ReferencesMake(before, specials, scope, sizes);
      ReferencesMake(sized, specials, scope, values);
      MakesBoth(b, before, sized, In(scope, DeclaratorUses(init)), In(scope, sizes));
      InBoth(scope, DeclaratorUses(init), sizes);
      MakesBoth(b, sized, BindDeclarators(b, specials, scope, ds), In(scope, DeclaratorUses(init) + sizes), In(scope, values));
      InBoth(scope, DeclaratorUses(init) + sizes, values);
    }
  }

  lemma {:induction false} ParametersMake(b: Binding, specials: set<string>, scope: nat, ps: seq<Parameter>)
    requires ScopesNest(b.scopes) && scope < |b.scopes|
    ensures Makes(b, BindParameters(b, specials, scope, ps), In(scope, ParameterUses(ps)))
  {
    hide Makes, In, AddReferences, SizeUses, UsesOf, DimensionMentions;
    InBoth(scope, [], []);
    if ps == [] {
      MakesNothing(b);
    } else {
      var init, p := ps[..|ps| - 1], ps[|ps| - 1];
      var before := BindParameters(b, specials, scope, init);
      var sizes := UsesOf(ArrayDimension, DimensionMentions(p.dimensions));
      ParametersMake(b, specials, scope, init);
      SizesMentioned(p.dimensions);
      ReferencesMake(before, specials, scope, sizes);
      MakesBoth(b, before, BindParameters(b, specials, scope, ps), In(scope, ParameterUses(init)), In(scope, sizes));
      InBoth(scope, ParameterUses(init), sizes);
    }
  }

  lemma DirectMakes(b: Binding, specials: set<string>, item: BodyItem, scope: nat)
    requires ScopesNest(b.scopes) && scope < |b.scopes| && !item.BlockItem?
    ensures var r := BindItem(b, specials, item, scope); r.Some? && Makes(b, r.value, In(scope, DirectUses(item)))
  {
    hide Makes, In, BindDeclarators, BindOperands, AddReference;
    InBoth(scope, [], []);
    MakesNothing(b);
    match item
    case VariablesItem(declaration) => DeclaratorsMake(b, specials, scope, declaration.declarators);
    case InstructionItem(guard, operands) =>
      if guard.Some? {
        var predicated := AddReference(b, specials, scope, Predicate, guard.value);
        ReferenceMakes(b, specials, scope, Predicate, guard.value);
        OperandsMake(predicated, specials, scope, operands);
        MakesBoth(b, predicated, BindOperands(predicated, specials, scope, operands), In(scope, [Use(Predicate, guard.value)]),
          In(scope, OperandsUses(operands)));
        InBoth(scope, [Use(Predicate, guard.value)], OperandsUses(operands));
      } else {
        OperandsMake(b, specials, scope, operands);
        assert [] + OperandsUses(operands) == OperandsUses(operands);
      }
    case _ =>
  }

  /** Binding a body, where it does not throw, makes each of its uses once, in order, in the scope that the search finds. */
  lemma {:induction false} BodyMakes(b: Binding, specials: set<string>, body: seq<BodyItem>, scope: nat,
                                     target: seq<BodyItem>, next: nat)
    requires ScopesNest(b.scopes) && scope < |b.scopes| && Mirrors(b.scopes, target, scope, next)
    requires BindBody(b, specials, body, scope).Some?
    ensures Makes(b, BindBody(b, specials, body, scope).value, BodyFound(target, body, scope, next))
    decreases body
  {
    hide Makes, FirstBlockScope, FirstBlockItem, BlockId, Mirrors;
    if body == [] {
      MakesNothing(b);
    } else {
      var init, last := body[..|body| - 1], body[|body| - 1];
      var before := BindBody(b, specials, init, scope).value;
      BodyMakes(b, specials, init, scope, target, next);
      ItemMakes(before, specials, last, scope, target, next);
      MakesBoth(b, before, BindBody(b, specials, body, scope).value, BodyFound(target, init, scope, next),
        ItemFound(target, last, scope, next));
    }
  }

  lemma {:induction false} ItemMakes(b: Binding, specials: set<string>, item: BodyItem, scope: nat,
                                     target: seq<BodyItem>, next: nat)
    requires ScopesNest(b.scopes) && scope < |b.scopes| && Mirrors(b.scopes, target, scope, next)
    requires BindItem(b, specials, item, scope).Some?
    ensures Makes(b, BindItem(b, specials, item, scope).value, ItemFound(target, item, scope, next))
    decreases item
  {
    hide Makes, FirstBlockScope, FirstBlockItem, BlockId, BindDeclarators, BindOperands, AddReference, DirectUses;
    if item.BlockItem? {
      FirstScopeIsFirstItem(b.scopes, target, scope, next, item.range);
      var t := FirstBlockItem(target, item.range).value;
      assert MirrorsAt(b.scopes, target, t, scope, next);
      BodyMakes(b, specials, item.body, BlockId(target, t, next), target[t].body, BlockId(target, t, next) + 1);
    } else {
      DirectMakes(b, specials, item, scope);
    }
  }

  // ---- the uses are all there -------------------------------------------------------------------

  /** The uses without the scopes they are looked up in. */
  function Unscoped(made: seq<Made>): (r: seq<Made>)
    ensures |r| == |made|
  {
    seq(|made|, i requires 0 <= i < |made| => made[i].(scope := 0))
  }

  lemma UnscopedBoth(first: seq<Made>, second: seq<Made>)
    ensures Unscoped(first + second) == Unscoped(first) + Unscoped(second)
  {
  }

  lemma UnscopedIn(scope: nat, uses: seq<Use>)
    ensures Unscoped(In(scope, uses)) == In(0, uses)
  {
  }

  lemma {:induction false} MadeUses(body: seq<BodyItem>, scope: nat, next: nat)
    ensures Unscoped(BodyMade(body, scope, next)) == In(0, BodyUses(body))
    decreases body
  {
    hide Unscoped, In, DirectUses, BlockCount;
    InBoth(0, [], []);
    if body == [] {
      UnscopedIn(0, []);
    } else {
      var init, last := body[..|body| - 1], body[|body| - 1];
      MadeUses(init, scope, next);
      ItemMadeUses(last, scope, next + BlockCount(init));
      UnscopedBoth(BodyMade(init, scope, next), ItemMade(last, scope, next + BlockCount(init)));
      InBoth(0, BodyUses(init), ItemUses(last));
    }
  }

  lemma {:induction false} ItemMadeUses(item: BodyItem, scope: nat, next: nat)
    ensures Unscoped(ItemMade(item, scope, next)) == In(0, ItemUses(item))
    decreases item
  {
    if item.BlockItem? {
      MadeUses(item.body, next, next + 1);
    } else {
      UnscopedIn(scope, DirectUses(item));
    }
  }

  /** Where its blocks resolve, a body's uses are found, each once and in order. */
  lemma {:induction false} FoundUses(target: seq<BodyItem>, body: seq<BodyItem>, scope: nat, next: nat)
    requires Resolves(target, body)
    ensures Unscoped(BodyFound(target, body, scope, next)) == In(0, BodyUses(body))
    decreases body
  {
    hide Unscoped, In, DirectUses, FirstBlockItem, BlockId;
    InBoth(0, [], []);
    if body == [] {
      UnscopedIn(0, []);
    } else {
      var init, last := body[..|body| - 1], body[|body| - 1];
      assert forall i :: 0 <= i < |init| ==> init[i] == body[i];
      FoundUses(target, init, scope, next);
      if last.BlockItem? {
        var t := FirstBlockItem(target, last.range).value;
        FoundUses(target[t].body, last.body, BlockId(target, t, next), BlockId(target, t, next) + 1);
      } else {
        UnscopedIn(scope, DirectUses(last));
      }
      UnscopedBoth(BodyFound(target, init, scope, next), ItemFound(target, last, scope, next));
      InBoth(0, BodyUses(init), ItemUses(last));
    }
  }

  // ---- in which scopes they are -----------------------------------------------------------------

  /** Scopes of a body, or of the blocks in it. */
  ghost predicate Within(made: seq<Made>, scope: nat, lo: nat, hi: nat) {
    forall k :: 0 <= k < |made| ==> made[k].scope == scope || lo <= made[k].scope < hi
  }

  lemma WithinBoth(a: seq<Made>, b: seq<Made>, scope: nat, lo: nat, hi: nat)
    requires Within(a, scope, lo, hi) && Within(b, scope, lo, hi)
    ensures Within(a + b, scope, lo, hi)
  {
  }

  lemma WithinWider(made: seq<Made>, own: nat, lo: nat, hi: nat, scope: nat, from: nat, limit: nat)
    requires Within(made, own, lo, hi) && from <= own < limit && from <= lo && hi <= limit
    ensures Within(made, scope, from, limit)
  {
  }

  lemma InWithin(scope: nat, uses: seq<Use>, lo: nat, hi: nat)
    ensures Within(In(scope, uses), scope, lo, hi) && Within([], scope, lo, hi)
  {
  }

  lemma {:induction false} MadeWithin(body: seq<BodyItem>, scope: nat, next: nat)
    ensures Within(BodyMade(body, scope, next), scope, next, next + BlockCount(body))
    decreases body
  {
    hide Within, In, DirectUses, BlockCount;
    InWithin(scope, [], next, next + BlockCount(body));
    if body != [] {
      var init, last := body[..|body| - 1], body[|body| - 1];
      BlocksOfLast(body);
      var own, hi := next + BlockCount(init), next + BlockCount(body);
      MadeWithin(init, scope, next);
      WithinMore(BodyMade(init, scope, next), scope, next, own, hi);
      if last.BlockItem? {
        MadeWithin(last.body, own, own + 1);
        WithinWider(BodyMade(last.body, own, own + 1), own, own + 1, own + 1 + BlockCount(last.body), scope, next, hi);
      } else {
        InWithin(scope, DirectUses(last), next, hi);
      }
      WithinBoth(BodyMade(init, scope, next), ItemMade(last, scope, own), scope, next, hi);
    }
  }

  lemma BlocksOfLast(body: seq<BodyItem>)
    requires body != []
    ensures BlockCount(body) == BlockCount(body[..|body| - 1]) + ItemBlocks(body[|body| - 1])
  {
  }

  lemma WithinMore(made: seq<Made>, scope: nat, lo: nat, hi: nat, limit: nat)
    requires Within(made, scope, lo, hi) && hi <= limit
    ensures Within(made, scope, lo, limit)
  {
  }

  lemma {:induction false} FoundWithin(target: seq<BodyItem>, body: seq<BodyItem>, scope: nat, next: nat)
    ensures Within(BodyFound(target, body, scope, next), scope, next, next + BlockCount(target))
    decreases body
  {
    hide FirstBlockItem, BlockId, Within, In, DirectUses, BlockCount;
    var hi := next + BlockCount(target);
    InWithin(scope, [], next, hi);
    if body != [] {
      var init, last := body[..|body| - 1], body[|body| - 1];
      FoundWithin(target, init, scope, next);
      if last.BlockItem? {
        if FirstBlockItem(target, last.range).Some? {
          var t := FirstBlockItem(target, last.range).value;
          var id := BlockId(target, t, next);
          FoundWithin(target[t].body, last.body, id, id + 1);
          BlockIdAtMost(target, t, next);
          WithinWider(BodyFound(target[t].body, last.body, id, id + 1), id, id + 1, id + 1 + BlockCount(target[t].body), scope,
            next, hi);
        }
      } else {
        InWithin(scope, DirectUses(last), next, hi);
      }
      WithinBoth(BodyFound(target, init, scope, next), ItemFound(target, last, scope, next), scope, next, hi);
    }
  }

  lemma BlockIdAtMost(body: seq<BodyItem>, i: nat, next: nat)
    requires i < |body| && body[i].BlockItem?
    ensures next <= BlockId(body, i, next) < BlockId(body, i, next) + 1 + BlockCount(body[i].body) <= next + BlockCount(body)
  {
    BlockIdMonotone(body, i, |body|, next);
    assert body[..|body|] == body;
  }

  /** A block that repeats the range of an earlier sibling has no uses in it, at every depth. */
  ghost predicate SilentRepeats(body: seq<BodyItem>)
    decreases body
  {
    && (forall i, j :: 0 <= i < j < |body| && body[i].BlockItem? && body[j].BlockItem? && body[i].range == body[j].range ==>
          BodyUses(body[j].body) == [])
    && (forall i :: 0 <= i < |body| && body[i].BlockItem? ==> SilentRepeats(body[i].body))
  }

  lemma {:induction false} SilentItems(body: seq<BodyItem>)
    requires BodyUses(body) == []
    ensures forall i :: 0 <= i < |body| ==> ItemUses(body[i]) == []
  {
    if body != [] {
      SilentItems(body[..|body| - 1]);
    }
  }

  lemma {:induction false} SilentRepeatNothing(body: seq<BodyItem>)
    requires BodyUses(body) == []
    ensures SilentRepeats(body)
    decreases body
  {
    hide BodyUses;
    SilentItems(body);
    forall i | 0 <= i < |body| && body[i].BlockItem? ensures BodyUses(body[i].body) == [] && SilentRepeats(body[i].body) {
      assert ItemUses(body[i]) == [];
      SilentRepeatNothing(body[i].body);
    }
  }

  lemma DistinctRepeatNothing(body: seq<BodyItem>)
    requires DistinctSiblings(body)
    ensures SilentRepeats(body)
    decreases body
  {
  }

  /** Two lists of references in disjoint scopes agree only if there are none. */
  lemma Apart(a: seq<Made>, b: seq<Made>, limit: nat)
    requires |a| == |b| && (forall k :: 0 <= k < |a| ==> a[k].scope < limit <= b[k].scope)
    ensures a == b <==> |a| == 0
  {
    if |a| > 0 {
      assert a[0] != b[0];
    }
  }

  /** No use of the last block is in question: it has none, or no earlier block has its range. */
  ghost predicate LastHeard(body: seq<BodyItem>)
    requires body != [] && body[|body| - 1].BlockItem?
  {
    var last := body[|body| - 1];
    forall j :: 0 <= j < |body| - 1 && body[j].BlockItem? && body[j].range == last.range ==> BodyUses(last.body) == []
  }

  lemma RepeatsStep(body: seq<BodyItem>)
    requires body != []
    ensures var init, last := body[..|body| - 1], body[|body| - 1];
      SilentRepeats(body) <==> SilentRepeats(init) && (last.BlockItem? ==> SilentRepeats(last.body) && LastHeard(body))
  {
    hide BodyUses;
    var init, last := body[..|body| - 1], body[|body| - 1];
    assert forall i :: 0 <= i < |init| ==> init[i] == body[i];
    if last.BlockItem? && SilentRepeats(init) && SilentRepeats(last.body) && LastHeard(body) {
      assert forall i, j :: 0 <= i < j < |init| && init[i].BlockItem? && init[j].BlockItem? && init[i].range == init[j].range ==>
        BodyUses(init[j].body) == [];
      assert SilentRepeats(body);
    }
  }

  /** Each use of a body is looked up in its own block exactly when no block with uses repeats an earlier sibling's range. */
  lemma {:induction false} FoundIsMadeIff(target: seq<BodyItem>, body: seq<BodyItem>, scope: nat, next: nat)
    requires body <= target && Resolves(target, body)
    ensures BodyFound(target, body, scope, next) == BodyMade(body, scope, next) <==> SilentRepeats(body)
    decreases body
  {
    hide BodyUses, DirectUses, FirstBlockItem, BlockCount, Unscoped, SilentRepeats, ItemFound, ItemMade, LastHeard, In;
    if body == [] {
      NothingFound(target, scope, next);
    } else {
      var init, last := body[..|body| - 1], body[|body| - 1];
      ResolvesPrefix(target, body);
      FoundIsMadeIff(target, init, scope, next);
      FoundUses(target, init, scope, next);
      MadeUses(init, scope, next);
      RepeatsStep(body);
      if last.BlockItem? {
        BlockFoundIff(target, body, scope, next);
      } else {
        DirectFound(target, last, scope, next, next + BlockCount(init));
      }
      PartsAgree(BodyFound(target, init, scope, next), ItemFound(target, last, scope, next),
        BodyMade(init, scope, next), ItemMade(last, scope, next + BlockCount(init)));
    }
  }

  lemma NothingFound(target: seq<BodyItem>, scope: nat, next: nat)
    ensures BodyFound(target, [], scope, next) == BodyMade([], scope, next) && SilentRepeats([])
  {
  }

  lemma DirectFound(target: seq<BodyItem>, item: BodyItem, scope: nat, next: nat, own: nat)
    requires !item.BlockItem?
    ensures ItemFound(target, item, scope, next) == ItemMade(item, scope, own)
  {
  }

  lemma ResolvesPrefix(target: seq<BodyItem>, body: seq<BodyItem>)
    requires body != [] && Resolves(target, body)
    ensures Resolves(target, body[..|body| - 1])
  {
    assert forall i :: 0 <= i < |body| - 1 ==> body[..|body| - 1][i] == body[i];
  }

  lemma PartsAgree(a: seq<Made>, b: seq<Made>, c: seq<Made>, d: seq<Made>)
    requires |a| == |c|
    ensures a + b == c + d <==> a == c && b == d
  {
    assert (a + b)[..|a|] == a && (a + b)[|a|..] == b;
    assert (c + d)[..|a|] == c && (c + d)[|a|..] == d;
  }

  lemma {:induction false} BlockFoundIff(target: seq<BodyItem>, body: seq<BodyItem>, scope: nat, next: nat)
    requires body != [] && body <= target && Resolves(target, body) && body[|body| - 1].BlockItem?
    ensures var last := body[|body| - 1];
      ItemFound(target, last, scope, next) == ItemMade(last, scope, next + BlockCount(body[..|body| - 1]))
      <==> SilentRepeats(last.body) && LastHeard(body)
    decreases body, 0
  {
    hide BodyUses, BodyFound, BodyMade, BlockCount, Unscoped, SilentRepeats, FirstBlockItem, Resolves;
    var i, last := |body| - 1, body[|body| - 1];
    LastResolves(target, body);
    var t := FirstBlockItem(target, last.range).value;
    var id, own := BlockId(target, t, next), next + BlockCount(body[..i]);
    assert target[i] == last && target[..i] == body[..i];
    if t == i {
      FoundIsMadeIff(last.body, last.body, id, id + 1);
    } else {
      assert body[t] == target[t];
      BlockIdMonotone(target, t, i, next);
      MisplacedIff(target[t].body, last.body, id, own);
    }
  }

  lemma LastResolves(target: seq<BodyItem>, body: seq<BodyItem>)
    requires body != [] && Resolves(target, body) && body[|body| - 1].BlockItem?
    ensures var t := FirstBlockItem(target, body[|body| - 1].range);
      t.Some? && Resolves(target[t.value].body, body[|body| - 1].body)
  {
  }

  /** Uses looked up below an earlier scope than their own are all misplaced. */
  lemma MisplacedIff(target: seq<BodyItem>, body: seq<BodyItem>, id: nat, own: nat)
    requires Resolves(target, body) && id + 1 + BlockCount(target) <= own
    ensures BodyFound(target, body, id, id + 1) == BodyMade(body, own, own + 1) <==> BodyUses(body) == []
    ensures BodyUses(body) == [] ==> SilentRepeats(body)
  {
    hide BodyUses, BodyFound, BodyMade, BlockCount, Unscoped, SilentRepeats, Resolves;
    var found, made := BodyFound(target, body, id, id + 1), BodyMade(body, own, own + 1);
    FoundUses(target, body, id, id + 1);
    MadeUses(body, own, own + 1);
    FoundWithin(target, body, id, id + 1);
    MadeWithin(body, own, own + 1);
    Apart(found, made, own);
    if BodyUses(body) == [] {
      SilentRepeatNothing(body);
    }
  }

  // ---- the whole module -------------------------------------------------------------------------

  /** The sizes of a function's parameters and then its body, in the function's own scope. */
  function FunctionMade(f: FunctionDeclaration, scope: nat): seq<Made> {
    In(scope, ParameterUses(f.returnParameters)) + In(scope, ParameterUses(f.parameters)) + BodyMade(f.body, scope, scope + 1)
  }

  function VariablesMade(items: seq<ModuleItem>): seq<Made> {
    if items == [] then []
    else
      VariablesMade(items[..|items| - 1]) +
      match items[|items| - 1]
      case ModuleVariables(declaration) => In(0, DeclaratorUses(declaration.declarators))
      case _ => []
  }

  function FunctionsMade(items: seq<ModuleItem>): seq<Made> {
    if items == [] then []
    else
      FunctionsMade(items[..|items| - 1]) +
      match items[|items| - 1]
      case FunctionItem(f) => FunctionMade(f, ScopeCount(items[..|items| - 1]))
      case _ => []
  }

  /** The references a module should make: those of its variables, and then function by function. */
  function ModuleMade(items: seq<ModuleItem>): seq<Made> {
    VariablesMade(items) + FunctionsMade(items)
  }

  function FunctionFound(f: FunctionDeclaration, scope: nat): seq<Made> {
    In(scope, ParameterUses(f.returnParameters)) + In(scope, ParameterUses(f.parameters))
    + BodyFound(f.body, f.body, scope, scope + 1)
  }

  function ContextsFound(contexts: seq<FunctionContext>): seq<Made> {
    if contexts == [] then []
    else
      ContextsFound(contexts[..|contexts| - 1])
      + FunctionFound(contexts[|contexts| - 1].declaration, contexts[|contexts| - 1].scope)
  }

  function ContextsMade(contexts: seq<FunctionContext>): seq<Made> {
    if contexts == [] then []
    else
      ContextsMade(contexts[..|contexts| - 1])
      + FunctionMade(contexts[|contexts| - 1].declaration, contexts[|contexts| - 1].scope)
  }

  lemma {:induction false} VariablesMake(b: Binding, specials: set<string>, items: seq<ModuleItem>)
    requires ScopesNest(b.scopes) && |b.scopes| > 0
    ensures Makes(b, BindModuleVariables(b, specials, items), VariablesMade(items))
  {
    hide Makes, In, BindDeclarators, DeclaratorUses;
    MakesNothing(b);
    if items != [] {
      var init, last := items[..|items| - 1], items[|items| - 1];
      var before := BindModuleVariables(b, specials, init);
      VariablesMake(b, specials, init);
      if last.ModuleVariables? {
        DeclaratorsMake(before, specials, 0, last.declaration.declarators);
        MakesBoth(b, before, BindModuleVariables(b, specials, items), VariablesMade(init),
          In(0, DeclaratorUses(last.declaration.declarators)));
      } else {
        assert VariablesMade(init) + [] == VariablesMade(init);
      }
    }
  }

  lemma FunctionMakes(b: Binding, specials: set<string>, f: FunctionDeclaration, scope: nat)
    requires ScopesNest(b.scopes) && scope < |b.scopes| && Mirrors(b.scopes, f.body, scope, scope + 1)
    requires BindFunction(b, specials, f, scope).Some?
    ensures Makes(b, BindFunction(b, specials, f, scope).value, FunctionFound(f, scope))
  {
    hide Makes, In, Mirrors, BindParameters, BindBody, BodyFound, ParameterUses;
    var outputs := BindParameters(b, specials, scope, f.returnParameters);
    var inputs := BindParameters(outputs, specials, scope, f.parameters);
    var returned, taken := In(scope, ParameterUses(f.returnParameters)), In(scope, ParameterUses(f.parameters));
    ParametersMake(b, specials, scope, f.returnParameters);
    ParametersMake(outputs, specials, scope, f.parameters);
    MakesBoth(b, outputs, inputs, returned, taken);
    BodyMakes(inputs, specials, f.body, scope, f.body, scope + 1);
    MakesBoth(b, inputs, BindFunction(b, specials, f, scope).value, returned + taken,
      BodyFound(f.body, f.body, scope, scope + 1));
  }

  lemma {:induction false} FunctionsMake(b: Binding, specials: set<string>, contexts: seq<FunctionContext>)
    requires ScopesNest(b.scopes) && (forall c :: c in contexts ==> c.scope < |b.scopes|) && ContextsMirror(b.scopes, contexts)
    requires BindFunctions(b, specials, contexts).Some?
    ensures Makes(b, BindFunctions(b, specials, contexts).value, ContextsFound(contexts))
  {
    hide Makes, Mirrors, BindFunction, FunctionFound, BlockCount;
    if contexts == [] {
      MakesNothing(b);
    } else {
      var init, last := contexts[..|contexts| - 1], contexts[|contexts| - 1];
      assert forall c :: c in init ==> c in contexts;
      assert last in contexts;
      var before := BindFunctions(b, specials, init).value;
      FunctionsMake(b, specials, init);
      FunctionMakes(before, specials, last.declaration, last.scope);
      MakesBoth(b, before, BindFunctions(b, specials, contexts).value, ContextsFound(init),
        FunctionFound(last.declaration, last.scope));
    }
  }

  lemma FunctionFoundIff(f: FunctionDeclaration, scope: nat)
    requires Resolves(f.body, f.body)
    ensures Unscoped(FunctionFound(f, scope)) == Unscoped(FunctionMade(f, scope))
    ensures FunctionFound(f, scope) == FunctionMade(f, scope) <==> SilentRepeats(f.body)
  {
    hide In, Unscoped, BodyFound, BodyMade, Resolves, SilentRepeats, ParameterUses;
    var parameters := In(scope, ParameterUses(f.returnParameters)) + In(scope, ParameterUses(f.parameters));
    var found, made := BodyFound(f.body, f.body, scope, scope + 1), BodyMade(f.body, scope, scope + 1);
    FoundUses(f.body, f.body, scope, scope + 1);
    MadeUses(f.body, scope, scope + 1);
    UnscopedBoth(parameters, found);
    UnscopedBoth(parameters, made);
    FoundIsMadeIff(f.body, f.body, scope, scope + 1);
    PartsAgree(parameters, found, parameters, made);
  }

  lemma {:induction false} ContextsFoundIff(contexts: seq<FunctionContext>)
    requires forall c :: c in contexts ==> Resolves(c.declaration.body, c.declaration.body)
    ensures Unscoped(ContextsFound(contexts)) == Unscoped(ContextsMade(contexts))
    ensures ContextsFound(contexts) == ContextsMade(contexts) <==> forall c :: c in contexts ==> SilentRepeats(c.declaration.body)
  {
    hide Unscoped, FunctionFound, FunctionMade, Resolves, SilentRepeats;
    if contexts != [] {
      var init, last := contexts[..|contexts| - 1], contexts[|contexts| - 1];
      assert forall c :: c in contexts <==> c in init || c == last;
      var f := last.declaration;
      ContextsFoundIff(init);
      FunctionFoundIff(f, last.scope);
      UnscopedBoth(ContextsFound(init), FunctionFound(f, last.scope));
      UnscopedBoth(ContextsMade(init), FunctionMade(f, last.scope));
      PartsAgree(ContextsFound(init), FunctionFound(f, last.scope), ContextsMade(init), FunctionMade(f, last.scope));
    }
  }

  /** The functions' own scopes are numbered in order, each followed by those of its blocks. */
  lemma {:induction false} ContextsAreMade(b: Binding, items: seq<ModuleItem>)
    requires Sound(b) && NamedModule(items) && |b.symbols| == |b.occurrences| && |b.scopes| == 1
    ensures ContextsMade(FunctionContexts(b, items)) == FunctionsMade(items)
  {
    hide Sound, FunctionMade, CollectModule, DeclaredModule, Logged;
    if items != [] {
      var init, last := items[..|items| - 1], items[|items| - 1];
      assert NamedModule(init) by { NamedParts(items); }
      ContextsAreMade(b, init);
      if last.FunctionItem? {
        ModuleAccounts(b, init);
        Balanced(b, CollectModule(b, init), DeclaredModule(init), ScopeCount(init) - 1);
        var c := FunctionContext(last.declaredFunction, ScopeCount(init));
        assert (FunctionContexts(b, init) + [c])[..|FunctionContexts(b, init)|] == FunctionContexts(b, init);
      } else {
        assert FunctionContexts(b, items) == FunctionContexts(b, init);
      }
    }
  }

  /** What a module's binding makes, as the search finds the blocks. */
  lemma ModuleMakes(items: seq<ModuleItem>, specials: set<string>)
    requires NamedModule(items) && BindSymbols(items, specials).Some?
    ensures Recorded(BindSymbols(items, specials).value.references) == VariablesMade(items) + ContextsFound(Contexts(items))
    ensures ContextsMade(Contexts(items)) == FunctionsMade(items)
    ensures BindSymbols(items, specials).value.diagnostics
      == Collected(items).diagnostics + UnresolvedAmong(BindSymbols(items, specials).value.references)
  {
    hide NamedModule, Sound, ContextsMirror, VariablesMade, FunctionContexts;
    CollectedBindable(items);
    var b := Collected(items);
    var variables := BindModuleVariables(b, specials, items);
    VariablesMake(b, specials, items);
    FunctionsMake(variables, specials, Contexts(items));
    MakesBoth(b, variables, BindSymbols(items, specials).value, VariablesMade(items), ContextsFound(Contexts(items)));
    assert Recorded([]) == [];
    IndexEventsSound(ModuleEvents(items));
    ContextsAreMade(IndexEvents(InitialBinding(), ModuleEvents(items)), items);
  }

  /**
   * Whatever the ranges, a module's binding, where it does not throw, makes one reference for each written use, in
   * order, and reports just those that name nothing. Each of them is looked up in the very block it stands in exactly
   * when no block with uses in it repeats the range of an earlier sibling.
   */
  lemma ReferencesMade(items: seq<ModuleItem>, specials: set<string>)
    requires NamedModule(items) && BindSymbols(items, specials).Some?
    ensures Unscoped(Recorded(BindSymbols(items, specials).value.references)) == Unscoped(ModuleMade(items))
    ensures Recorded(BindSymbols(items, specials).value.references) == ModuleMade(items)
      <==> forall f :: FunctionItem(f) in items ==> SilentRepeats(f.body)
    ensures BindSymbols(items, specials).value.diagnostics
      == Collected(items).diagnostics + UnresolvedAmong(BindSymbols(items, specials).value.references)
  {
    hide NamedModule, Resolves, SilentRepeats, Recorded, Unscoped, BindSymbols, FunctionContexts;
    ModuleMakes(items, specials);
    BindingSucceedsIff(items, specials);
    ContextsAreFunctions(IndexEvents(InitialBinding(), ModuleEvents(items)), items);
    assert forall f :: FunctionItem(f) in items ==> exists c :: c in Contexts(items) && c.declaration == f;
    ContextsFoundIff(Contexts(items));
    UnscopedBoth(VariablesMade(items), ContextsFound(Contexts(items)));
    UnscopedBoth(VariablesMade(items), FunctionsMade(items));
    PartsAgree(VariablesMade(items), ContextsFound(Contexts(items)), VariablesMade(items), FunctionsMade(items));
  }

  /** With distinct sibling ranges binding succeeds, and makes exactly the written references, each in its own block. */
  lemma DistinctRangesMake(items: seq<ModuleItem>, specials: set<string>)
    requires NamedModule(items) && forall f :: FunctionItem(f) in items ==> DistinctSiblings(f.body)
    ensures BindSymbols(items, specials).Some?
    ensures Recorded(BindSymbols(items, specials).value.references) == ModuleMade(items)
  {
    hide NamedModule, DistinctSiblings, SilentRepeats, BindSymbols, Recorded, Unscoped;
    DistinctRangesBind(items, specials);
    forall f | FunctionItem(f) in items ensures SilentRepeats(f.body) {
      DistinctRepeatNothing(f.body);
    }
    ReferencesMade(items, specials);
  }
}
