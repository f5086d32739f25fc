/** What binding a whole module establishes. */
module BoundModule {
  import opened Common
  import opened Symbols
  import opened LexicalBinding
  import opened BindingPass
  import opened CollectingPass
  import opened BlockScopes

  /** The table once every declaration has been collected. */
  ghost function Collected(items: seq<ModuleItem>): Binding {
    CollectModule(IndexEvents(InitialBinding(), ModuleEvents(items)), items)
  }

  ghost function Contexts(items: seq<ModuleItem>): seq<FunctionContext> {
    FunctionContexts(IndexEvents(InitialBinding(), ModuleEvents(items)), items)
  }

  lemma CollectedBindable(items: seq<ModuleItem>)
    requires NamedModule(items)
    ensures Sound(Collected(items)) && ScopesNest(Collected(items).scopes) && |Collected(items).scopes| > 0
    ensures Collected(items).references == []
    ensures forall c :: c in Contexts(items) ==> c.scope < |Collected(items).scopes|
    ensures ContextsMirror(Collected(items).scopes, Contexts(items))
    ensures Collected(items).sourceOrders == IndexEvents(InitialBinding(), ModuleEvents(items)).sourceOrders
  {
    var b := IndexEvents(InitialBinding(), ModuleEvents(items));
    IndexEventsSound(ModuleEvents(items));
    CollectModuleGrows(b, items);
    ContextsExist(b, items);
    CollectModuleMirrors(b, items);
  }

  /** The binding of a module; no value stands for the exception on a block without a scope. */
  ghost function BindSymbols(items: seq<ModuleItem>, specials: set<string>): Option<Binding>
    requires NamedModule(items)
  {
    CollectedBindable(items);
    BindFunctions(BindModuleVariables(Collected(items), specials, items), specials, Contexts(items))
  }

  lemma {:induction false} BindFunctionsSucceedIff(b: Binding, specials: set<string>, contexts: seq<FunctionContext>)
    requires ScopesNest(b.scopes) && forall c :: c in contexts ==> c.scope < |b.scopes|
    requires ContextsMirror(b.scopes, contexts)
    ensures BindFunctions(b, specials, contexts).Some?
      <==> forall c :: c in contexts ==> Resolves(c.declaration.body, c.declaration.body)
  {
    if contexts != [] {
      var init, last := contexts[..|contexts| - 1], contexts[|contexts| - 1];
      assert forall c :: c in contexts <==> c in init || c == last;
      BindFunctionsSucceedIff(b, specials, init);
      var before := BindFunctions(b, specials, init);
      if before.Some? {
        var f := last.declaration;
        var outputs := BindParameters(before.value, specials, last.scope, f.returnParameters);
        BindBodySucceedsIff(BindParameters(outputs, specials, last.scope, f.parameters), specials, f.body, last.scope,
          f.body, last.scope + 1);
      }
    }
  }

  /** The functions that binding visits are the module's. */
  lemma {:induction false} ContextsAreFunctions(b: Binding, items: seq<ModuleItem>)
    ensures forall c :: c in FunctionContexts(b, items) ==> FunctionItem(c.declaration) in items
    ensures forall f :: FunctionItem(f) in items ==> exists c :: c in FunctionContexts(b, items) && c.declaration == f
  {
    hide CollectModule;
    if items != [] {
      var init, last := items[..|items| - 1], items[|items| - 1];
      ContextsAreFunctions(b, init);
      forall f | FunctionItem(f) in items ensures exists c :: c in FunctionContexts(b, items) && c.declaration == f {
        if FunctionItem(f) == last {
          assert FunctionContext(f, |CollectModule(b, init).scopes|) in FunctionContexts(b, items);
        } else {
          assert FunctionItem(f) in init;
        }
      }
    }
  }

  /** Binding a module succeeds exactly when, in each of its functions, every block resolves among its siblings. */
  lemma BindingSucceedsIff(items: seq<ModuleItem>, specials: set<string>)
    requires NamedModule(items)
    ensures BindSymbols(items, specials).Some? <==> forall f :: FunctionItem(f) in items ==> Resolves(f.body, f.body)
  {
    hide NamedModule, Resolves, Sound, ScopesNest, FunctionContexts;
    CollectedBindable(items);
    BindFunctionsSucceedIff(BindModuleVariables(Collected(items), specials, items), specials, Contexts(items));
    ContextsAreFunctions(IndexEvents(InitialBinding(), ModuleEvents(items)), items);
    forall f | FunctionItem(f) in items
      ensures exists c :: c in Contexts(items) && c.declaration == f
    {
    }
  }

  /** A body whose second block has the first one's range, and an inner block of its own. */
  function RepeatedRange(r: SourceRange, q: SourceRange): seq<BodyItem> {
    [BlockItem(r, []), BlockItem(r, [BlockItem(q, [])])]
  }

  /** Binding does throw: a module with one function of that body is a proper input, and its binding fails. */
  lemma RepeatedRangeThrows(f: FunctionDeclaration, r: SourceRange, q: SourceRange, specials: set<string>)
    requires NamedFunction(f.(body := [])) && f.body == RepeatedRange(r, q)
    ensures NamedModule([FunctionItem(f)]) && BindSymbols([FunctionItem(f)], specials).None?
  {
    hide Resolves;
    var items := [FunctionItem(f)];
    var inner := BlockItem(q, []);
    assert NamedBody([]) && NamedItem(inner) && [inner][0] == inner;
    assert NamedBody([inner]) && NamedItem(f.body[0]) && NamedItem(f.body[1]) && NamedBody(f.body);
    BindingSucceedsIff(items, specials);
    RepeatedRangeUnresolved(r, q);
    assert FunctionItem(f) in items;
  }

  lemma RepeatedRangeUnresolved(r: SourceRange, q: SourceRange)
    ensures !Resolves(RepeatedRange(r, q), RepeatedRange(r, q))
  {
    var body, inner := RepeatedRange(r, q), [BlockItem(q, [])];
    assert body[0].range == r && FirstBlockItem(body, r) == Some(0);
    assert inner[0].BlockItem? && FirstBlockItem([], q).None?;
    assert !Resolves([], inner);
    assert body[1].body == inner;
  }

  /** Distinct sibling ranges in every function rule the exception out. */
  lemma DistinctRangesBind(items: seq<ModuleItem>, specials: set<string>)
    requires NamedModule(items) && forall f :: FunctionItem(f) in items ==> DistinctSiblings(f.body)
    ensures BindSymbols(items, specials).Some?
  {
    hide NamedModule, DistinctSiblings, Resolves, BindSymbols;
    forall f | FunctionItem(f) in items ensures Resolves(f.body, f.body) {
      DistinctResolves(f.body);
    }
    BindingSucceedsIff(items, specials);
  }

  /** In every function, the two passes agree on all blocks exactly when sibling blocks have distinct ranges. */
  lemma PassesAgreeEverywhereIff(items: seq<ModuleItem>, c: FunctionContext)
    requires NamedModule(items) && c in Contexts(items)
    ensures VisitsOwnScopes(Collected(items).scopes, c.declaration.body, c.scope, c.scope + 1)
      <==> DistinctSiblings(c.declaration.body)
  {
    hide VisitsOwnScopes, DistinctSiblings, Mirrors, Collected, Contexts, Sound, ScopesNest, NamedModule;
    CollectedBindable(items);
    PassesAgreeIff(Collected(items).scopes, c.declaration.body, c.scope, c.scope + 1);
  }

  /** A reference resolved as a linear lookup in the finished table resolves it. */
  ghost predicate ResolvedLinearly(b: Binding, specials: set<string>, r: SymbolReference)
    requires ScopesNest(b.scopes)
  {
    && r.scope < |b.scopes|
    && r.target == (if r.spelling in specials then None else LinearLookup(b.scopes, b.symbols, r.scope, r.spelling))
    && (r.classification == SpecialRegister <==> r.spelling in specials)
    && (r.classification == Unresolved <==> r.spelling !in specials && r.target.None?)
    && (r.classification == Unresolved ==> UnresolvedReference(r.range) in b.diagnostics)
    && (r.target.Some? ==>
          && r.target.value.symbol < |b.symbols|
          && (r.classification == ExternalSymbol <==> b.symbols[r.target.value.symbol].linkage == External)
          && (r.classification == DeclaredSymbol <==> b.symbols[r.target.value.symbol].linkage != External))
  }

  lemma {:induction false} LookupIsStored(scopes: seq<Scope>, symbols: seq<Symbol>, scope: nat, name: string)
    requires ScopesNest(scopes) && scope < |scopes|
    ensures var r := LinearLookup(scopes, symbols, scope, name); r.Some? ==> r.value.symbol < |symbols|
    decreases scope
  {
    hide FirstMatch;
    if scopes[scope].parent.Some? {
      LookupIsStored(scopes, symbols, scopes[scope].parent.value, name);
    }
  }

  ghost predicate AllResolvedLinearly(b: Binding, specials: set<string>)
    requires ScopesNest(b.scopes)
  {
    forall i :: 0 <= i < |b.references| ==> ResolvedLinearly(b, specials, b.references[i])
  }

  lemma AddReferenceResolved(b: Binding, specials: set<string>, scope: nat, kind: ReferenceKind, id: Identifier)
    requires ScopesNest(b.scopes) && scope < |b.scopes| && AllResolvedLinearly(b, specials)
    ensures AllResolvedLinearly(AddReference(b, specials, scope, kind, id), specials)
  {
    var after := AddReference(b, specials, scope, kind, id);
    LookupIsStored(b.scopes, b.symbols, scope, id.text);
    forall i | 0 <= i < |after.references| ensures ResolvedLinearly(after, specials, after.references[i]) {
      if i < |b.references| {
        assert ResolvedLinearly(b, specials, b.references[i]);
      }
    }
  }

  lemma {:induction false} AddReferencesResolved(b: Binding, specials: set<string>, scope: nat, uses: seq<Use>)
    requires ScopesNest(b.scopes) && scope < |b.scopes| && AllResolvedLinearly(b, specials)
    ensures AllResolvedLinearly(AddReferences(b, specials, scope, uses), specials)
  {
    if uses != [] {
      var last := uses[|uses| - 1];
      AddReferencesResolved(b, specials, scope, uses[..|uses| - 1]);
      AddReferenceResolved(AddReferences(b, specials, scope, uses[..|uses| - 1]), specials, scope, last.kind, last.name);
    }
  }

  lemma {:induction false} BindOperandsResolved(b: Binding, specials: set<string>, scope: nat, operands: seq<Operand>)
    requires ScopesNest(b.scopes) && scope < |b.scopes| && AllResolvedLinearly(b, specials)
    ensures AllResolvedLinearly(BindOperands(b, specials, scope, operands), specials)
  {
    if operands != [] {
      var init := operands[..|operands| - 1];
      BindOperandsResolved(b, specials, scope, init);
      AddReferencesResolved(BindOperands(b, specials, scope, init), specials, scope, OperandUses(operands[|operands| - 1]));
    }
  }

  lemma BindDimensionsResolved(b: Binding, specials: set<string>, scope: nat, dimensions: seq<Option<Expression>>)
    requires ScopesNest(b.scopes) && scope < |b.scopes| && AllResolvedLinearly(b, specials)
    ensures AllResolvedLinearly(BindDimensions(b, specials, scope, dimensions), specials)
  {
    AddReferencesResolved(b, specials, scope, UsesOf(ArrayDimension, DimensionMentions(dimensions)));
  }

  lemma {:induction false} BindDeclaratorsResolved(b: Binding, specials: set<string>, scope: nat, ds: seq<Declarator>)
    requires ScopesNest(b.scopes) && scope < |b.scopes| && AllResolvedLinearly(b, specials)
    ensures AllResolvedLinearly(BindDeclarators(b, specials, scope, ds), specials)
  {
    if ds != [] {
      var init, last := ds[..|ds| - 1], ds[|ds| - 1];
      BindDeclaratorsResolved(b, specials, scope, init);
      var before := BindDeclarators(b, specials, scope, init);
      BindDimensionsResolved(before, specials, scope, last.dimensions);
      AddReferencesResolved(BindDimensions(before, specials, scope, last.dimensions), specials, scope,
        UsesOf(Initializer, OptionalMentions(last.initializer, true)));
    }
  }

  lemma {:induction false} BindBodyResolved(b: Binding, specials: set<string>, body: seq<BodyItem>, scope: nat)
    requires ScopesNest(b.scopes) && scope < |b.scopes| && AllResolvedLinearly(b, specials)
    ensures BindBody(b, specials, body, scope).Some? ==> AllResolvedLinearly(BindBody(b, specials, body, scope).value, specials)
    decreases body
  {
    if body != [] {
      var last := body[|body| - 1];
      BindBodyResolved(b, specials, body[..|body| - 1], scope);
      var before := BindBody(b, specials, body[..|body| - 1], scope);
      if before.Some? {
        match last
        case VariablesItem(declaration) => BindDeclaratorsResolved(before.value, specials, scope, declaration.declarators);
        case InstructionItem(guard, operands) =>
          if guard.Some? {
            AddReferenceResolved(before.value, specials, scope, Predicate, guard.value);
            BindOperandsResolved(AddReference(before.value, specials, scope, Predicate, guard.value), specials, scope,
              operands);
          } else {
            BindOperandsResolved(before.value, specials, scope, operands);
          }
        case BlockItem(range, inner) =>
          var block := FirstBlockScope(b.scopes, scope, range);
          if block.Some? {
            BindBodyResolved(before.value, specials, inner, block.value);
          }
        case _ =>
      }
    }
  }

  lemma {:induction false} BindParametersResolved(b: Binding, specials: set<string>, scope: nat, ps: seq<Parameter>)
    requires ScopesNest(b.scopes) && scope < |b.scopes| && AllResolvedLinearly(b, specials)
    ensures AllResolvedLinearly(BindParameters(b, specials, scope, ps), specials)
  {
    if ps != [] {
      BindParametersResolved(b, specials, scope, ps[..|ps| - 1]);
      BindDimensionsResolved(BindParameters(b, specials, scope, ps[..|ps| - 1]), specials, scope, ps[|ps| - 1].dimensions);
    }
  }

  lemma {:induction false} BindModuleVariablesResolved(b: Binding, specials: set<string>, items: seq<ModuleItem>)
    requires ScopesNest(b.scopes) && |b.scopes| > 0 && AllResolvedLinearly(b, specials)
    ensures AllResolvedLinearly(BindModuleVariables(b, specials, items), specials)
  {
    if items != [] {
      BindModuleVariablesResolved(b, specials, items[..|items| - 1]);
      match items[|items| - 1]
      case ModuleVariables(declaration) =>
        BindDeclaratorsResolved(BindModuleVariables(b, specials, items[..|items| - 1]), specials, 0,
          declaration.declarators);
      case _ =>
    }
  }

  lemma {:induction false} BindFunctionsResolved(b: Binding, specials: set<string>, contexts: seq<FunctionContext>)
    requires ScopesNest(b.scopes) && forall c :: c in contexts ==> c.scope < |b.scopes|
    requires AllResolvedLinearly(b, specials)
    ensures var r := BindFunctions(b, specials, contexts); r.Some? ==> AllResolvedLinearly(r.value, specials)
  {
    if contexts != [] {
      var init, last := contexts[..|contexts| - 1], contexts[|contexts| - 1];
      assert last in contexts;
      BindFunctionsResolved(b, specials, init);
      var before := BindFunctions(b, specials, init);
      if before.Some? {
        var f := last.declaration;
        BindParametersResolved(before.value, specials, last.scope, f.returnParameters);
        var outputs := BindParameters(before.value, specials, last.scope, f.returnParameters);
        BindParametersResolved(outputs, specials, last.scope, f.parameters);
        BindBodyResolved(BindParameters(outputs, specials, last.scope, f.parameters), specials, f.body, last.scope);
      }
    }
  }

  /** Binding references leaves the table and the reports about its declarations as they were collected. */
  lemma ReferencesKeep(b: Binding, after: Binding)
    requires Sound(b) && SameTable(b, after)
    ensures Sound(after)
  {
    hide WellFormed;
    SameDeclarationsKeep(b, after);
  }

  /** A bound module: the collected table, sound, with exact reports of overlaps, and every reference resolved linearly. */
  lemma BoundModuleIsSound(items: seq<ModuleItem>, specials: set<string>)
    requires NamedModule(items) && BindSymbols(items, specials).Some?
    ensures var b := BindSymbols(items, specials).value;
      && SameTable(Collected(items), b) && Sound(b) && ScopesNest(b.scopes)
      && AllResolvedLinearly(b, specials)
      && (SpellingsDisjoint(b.symbols) <==> forall d :: d in b.diagnostics && d.DuplicateSymbol? ==> !d.overlapping)
  {
    hide WellFormed, SpellingsDisjoint, NamedModule;
    CollectedBindable(items);
    BindModuleVariablesResolved(Collected(items), specials, items);
    BindFunctionsResolved(BindModuleVariables(Collected(items), specials, items), specials, Contexts(items));
    Trailing(Collected(items), BindModuleVariables(Collected(items), specials, items), BindSymbols(items, specials).value);
    ReferencesKeep(Collected(items), BindSymbols(items, specials).value);
    DisjointIffUnreported(BindSymbols(items, specials).value);
  }

  lemma Trailing(a: Binding, b: Binding, c: Binding)
    requires SameTable(a, b) && SameTable(b, c)
    ensures SameTable(a, c)
  {
  }
}
