/** The scopes a bound module has, written out from its text, and the scope that each function's symbol owns. */
module ScopeLog {
  import opened Common
  import opened Symbols
  import opened LexicalBinding
  import opened BindingPass
  import opened CollectingPass
  import opened BlockScopes
  import opened BoundModule
  import opened DeclarationLog
  import opened SymbolLog

  // ---- the scopes -------------------------------------------------------------------------------

  /** A body's blocks in order, each below the body or block it stands in. */
  function BodyScopes(body: seq<BodyItem>, parent: nat, next: nat): (r: seq<Scope>)
    decreases body
  {
    if body == [] then []
    else
      var init := body[..|body| - 1];
      BodyScopes(init, parent, next) + ItemScopes(body[|body| - 1], parent, next + BlockCount(init))
  }

  function ItemScopes(item: BodyItem, parent: nat, next: nat): (r: seq<Scope>)
    decreases item
  {
    match item
    case BlockItem(range, body) => [Scope(next, BlockScope, Some(parent), None, Some(range))] + BodyScopes(body, next, next + 1)
    case _ => []
  }

  /** The function's own scope below the module, owned by the function's symbol, and then its blocks. */
  function FunctionScopes(f: FunctionDeclaration, owner: nat, next: nat): seq<Scope> {
    [Scope(next, FunctionScope, Some(0), Some(owner), Some(f.range))] + BodyScopes(f.body, next, next + 1)
  }

  /** The written declaration of a function's name. */
  function FunctionName(f: FunctionDeclaration): Written {
    Lexical(0, Named(SymbolKind.Function, f.name).(linkage := f.linkage), true)
  }

  /** The symbol of a name after what was written before it. */
  function SymbolOf(ws: seq<Written>, w: Written): nat {
    match Repeated(Firsts(ws), w)
    case Some(i) => i
    case None => |Firsts(ws)|
  }

  /** The module's scope, and in order those of its functions. */
  ghost function ModuleScopes(items: seq<ModuleItem>): seq<Scope> {
    if items == [] then [Scope(0, ModuleScope, None, None, None)]
    else
      var init := items[..|items| - 1];
      ModuleScopes(init) +
      match items[|items| - 1]
      case FunctionItem(f) => FunctionScopes(f, SymbolOf(WrittenModule(init), FunctionName(f)), ScopeCount(init))
      case _ => []
  }

  lemma {:induction false} BodyScoped(b: Binding, body: seq<BodyItem>, functionScope: nat, scope: nat)
    ensures var after := CollectBody(b, body, functionScope, scope);
      after.scopes == b.scopes + BodyScopes(body, scope, |b.scopes|) && |BodyScopes(body, scope, |b.scopes|)| == BlockCount(body)
    decreases body
  {
    hide CollectItem, ItemScopes;
    if body != [] {
      var init, last := body[..|body| - 1], body[|body| - 1];
      var before := CollectBody(b, init, functionScope, scope);
      BodyScoped(b, init, functionScope, scope);
      ItemScoped(before, last, functionScope, scope);
      assert (b.scopes + BodyScopes(init, scope, |b.scopes|)) + ItemScopes(last, scope, |before.scopes|)
        == b.scopes + (BodyScopes(init, scope, |b.scopes|) + ItemScopes(last, scope, |before.scopes|));
    }
  }

  lemma {:induction false} ItemScoped(b: Binding, item: BodyItem, functionScope: nat, scope: nat)
    ensures var after := CollectItem(b, item, functionScope, scope);
      after.scopes == b.scopes + ItemScopes(item, scope, |b.scopes|) && |ItemScopes(item, scope, |b.scopes|)| == ItemBlocks(item)
    decreases item
  {
    hide AddSymbol, CollectBody, BodyScopes, CollectDeclarators;
    match item
    case VariablesItem(declaration) => DeclaratorsScoped(b, scope, declaration, declaration.declarators);
    case LabelItem(name) => AddScoped(b, functionScope, Named(Label, name), false);
    case CallPrototypeItem(name) => AddScoped(b, functionScope, Named(CallPrototype, name), false);
    case CallTargetsItem(name) => AddScoped(b, functionScope, Named(CallTargetSet, name), false);
    case BranchTargetsItem(name) => AddScoped(b, functionScope, Named(BranchTargetSet, name), false);
    case InstructionItem(_, _) =>
    case BlockItem(range, body) =>
      BodyScoped(AddBlockScope(b, scope, range), body, functionScope, |b.scopes|);
  }

  lemma AddScoped(b: Binding, scope: nat, d: Declaration, allow: bool)
    ensures AddSymbol(b, scope, d, allow).0.scopes == b.scopes
  {
  }

  lemma {:induction false} DeclaratorsScoped(b: Binding, scope: nat, declaration: VariableDeclaration, ds: seq<Declarator>)
    ensures CollectDeclarators(b, scope, declaration, ds).scopes == b.scopes
  {
    if ds != [] {
      DeclaratorsScoped(b, scope, declaration, ds[..|ds| - 1]);
    }
  }

  lemma {:induction false} ParametersScoped(b: Binding, scope: nat, kind: SymbolKind, ps: seq<Parameter>)
    ensures CollectParameters(b, scope, kind, ps).scopes == b.scopes
  {
    if ps != [] {
      ParametersScoped(b, scope, kind, ps[..|ps| - 1]);
    }
  }

  // ---- the symbol of a function -----------------------------------------------------------------

  /** Adding the function's name yields the symbol of that name. */
  lemma NameIsSymbol(b: Binding, ws: seq<Written>, f: FunctionDeclaration)
    requires Stores(b, ws)
    ensures AddSymbol(b, 0, FunctionName(f).declaration, true).1 == SymbolOf(ws, FunctionName(f))
  {
    hide Firsts, Repeated, FirstMatch, StoredAs, Reported, Repetitions;
    ScanFindsRepeated(b.symbols, ws, FunctionName(f));
  }

  function OwnedOf(symbols: seq<Symbol>, k: nat): Option<nat> {
    if k < |symbols| then symbols[k].ownedScope else None
  }

  /** Whether a function item declares the symbol, as a definition or as a prototype only. */
  ghost predicate Declares(items: seq<ModuleItem>, i: nat, symbol: nat) {
    && i < |items| && items[i].FunctionItem?
    && SymbolOf(WrittenModule(items[..i]), FunctionName(items[i].declaredFunction)) == symbol
  }

  ghost predicate Defines(items: seq<ModuleItem>, i: nat, symbol: nat) {
    Declares(items, i, symbol) && !items[i].declaredFunction.isPrototype
  }

  /** The last definition's scope is the symbol's own; without a definition it is that of the first prototype. */
  ghost predicate OwnScope(items: seq<ModuleItem>, symbol: nat, owned: Option<nat>) {
    match owned
    case None => forall i: nat :: !Declares(items, i, symbol)
    case Some(scope) =>
      exists i: nat :: Declares(items, i, symbol) && scope == ScopeCount(items[..i])
        && if Defines(items, i, symbol) then forall j: nat :: i < j ==> !Defines(items, j, symbol)
           else forall j: nat :: !Defines(items, j, symbol) && (j < i ==> !Declares(items, j, symbol))
  }

  lemma FunctionScoped(b: Binding, ws: seq<Written>, f: FunctionDeclaration)
    requires Stores(b, ws)
    ensures CollectFunction(b, f).scopes == b.scopes + FunctionScopes(f, SymbolOf(ws, FunctionName(f)), |b.scopes|)
  {
    hide Stores, BodyScopes, CollectBody, AddSymbol, SymbolOf;
    var scope := |b.scopes|;
    var added := AddSymbol(b, 0, FunctionName(f).declaration, true).0;
    var entered := OpenedFunction(b, f);
    NameIsSymbol(b, ws, f);
    AddScoped(b, 0, FunctionName(f).declaration, true);
    ParametersScoped(entered, scope, ReturnParameter, f.returnParameters);
    var outputs := CollectParameters(entered, scope, ReturnParameter, f.returnParameters);
    ParametersScoped(outputs, scope, InputParameter, f.parameters);
    BodyScoped(CollectFunctionHeader(b, f), f.body, scope, scope);
  }

  lemma {:induction false} ModuleScoped(b: Binding, items: seq<ModuleItem>)
    requires Stores(b, []) && b.scopes == InitialBinding().scopes
    ensures CollectModule(b, items).scopes == ModuleScopes(items)
  {
    hide Stores, FunctionScopes, CollectFunction, WrittenModule, ScopeCount;
    if items != [] {
      var init, last := items[..|items| - 1], items[|items| - 1];
      var before := CollectModule(b, init);
      ModuleScoped(b, init);
      ModuleStored(b, init);
      match last
      case ModuleVariables(declaration) => DeclaratorsScoped(before, 0, declaration, declaration.declarators);
      case FunctionItem(f) => FunctionScoped(before, WrittenModule(init), f);
      case FileItem(_) =>
      case DebugStringItem(section, labels) =>
        LabelsScoped(AddMetadata(before, DebugStringLabel, section.text, section.range, true), labels);
    }
  }

  lemma {:induction false} LabelsScoped(b: Binding, labels: seq<Identifier>)
    ensures CollectLabels(b, labels).scopes == b.scopes
  {
    if labels != [] {
      LabelsScoped(b, labels[..|labels| - 1]);
    }
  }

  // ---- the scope that a symbol owns -------------------------------------------------------------

  /** Symbols keep the scopes they own, and further ones own none. */
  ghost predicate KeepsOwned(before: seq<Symbol>, after: seq<Symbol>) {
    forall k: nat :: OwnedOf(after, k) == OwnedOf(before, k)
  }

  lemma AddKeeps(b: Binding, scope: nat, d: Declaration, allow: bool)
    ensures KeepsOwned(b.symbols, AddSymbol(b, scope, d, allow).0.symbols)
  {
  }

  lemma {:induction false} DeclaratorsKeep(b: Binding, scope: nat, declaration: VariableDeclaration, ds: seq<Declarator>)
    ensures KeepsOwned(b.symbols, CollectDeclarators(b, scope, declaration, ds).symbols)
  {
    hide AddSymbol;
    if ds != [] {
      var d := ds[|ds| - 1];
      var before := CollectDeclarators(b, scope, declaration, ds[..|ds| - 1]);
      var kind := if scope != 0 && declaration.inParameterSpace then CallParameter else Variable;
      var (counted, count) := ParameterizedCount(before, d.count);
      DeclaratorsKeep(b, scope, declaration, ds[..|ds| - 1]);
      AddKeeps(counted, scope, Declaration(kind, MemberNames.DeclaredName(d.name.text, count), d.name.range,
                                           declaration.linkage, d.dimensions != []), scope == 0);
    }
  }

  lemma {:induction false} ParametersKeep(b: Binding, scope: nat, kind: SymbolKind, ps: seq<Parameter>)
    ensures KeepsOwned(b.symbols, CollectParameters(b, scope, kind, ps).symbols)
  {
    hide AddSymbol;
    if ps != [] {
      var p := ps[|ps| - 1];
      ParametersKeep(b, scope, kind, ps[..|ps| - 1]);
      AddKeeps(CollectParameters(b, scope, kind, ps[..|ps| - 1]), scope,
        Declaration(kind, MemberNames.DeclaredName(p.name.text, None), p.name.range, NoLinkage, p.dimensions != []), false);
    }
  }

  lemma {:induction false} BodyKeeps(b: Binding, body: seq<BodyItem>, functionScope: nat, scope: nat)
    ensures KeepsOwned(b.symbols, CollectBody(b, body, functionScope, scope).symbols)
    decreases body
  {
    hide CollectItem;
    if body != [] {
      BodyKeeps(b, body[..|body| - 1], functionScope, scope);
      ItemKeeps(CollectBody(b, body[..|body| - 1], functionScope, scope), body[|body| - 1], functionScope, scope);
    }
  }

  lemma {:induction false} ItemKeeps(b: Binding, item: BodyItem, functionScope: nat, scope: nat)
    ensures KeepsOwned(b.symbols, CollectItem(b, item, functionScope, scope).symbols)
    decreases item
  {
    hide AddSymbol, CollectBody, CollectDeclarators;
    match item
    case VariablesItem(declaration) => DeclaratorsKeep(b, scope, declaration, declaration.declarators);
    case LabelItem(name) => AddKeeps(b, functionScope, Named(Label, name), false);
    case CallPrototypeItem(name) => AddKeeps(b, functionScope, Named(CallPrototype, name), false);
    case CallTargetsItem(name) => AddKeeps(b, functionScope, Named(CallTargetSet, name), false);
    case BranchTargetsItem(name) => AddKeeps(b, functionScope, Named(BranchTargetSet, name), false);
    case InstructionItem(_, _) =>
    case BlockItem(range, body) => BodyKeeps(AddBlockScope(b, scope, range), body, functionScope, |b.scopes|);
  }

  lemma MetadataKeeps(b: Binding, kind: SymbolKind, name: string, range: SourceRange, idempotent: bool)
    ensures KeepsOwned(b.symbols, AddMetadata(b, kind, name, range, idempotent).symbols)
  {
  }

  lemma {:induction false} LabelsKeep(b: Binding, labels: seq<Identifier>)
    ensures KeepsOwned(b.symbols, CollectLabels(b, labels).symbols)
  {
    hide AddMetadata;
    if labels != [] {
      var last := labels[|labels| - 1];
      LabelsKeep(b, labels[..|labels| - 1]);
      MetadataKeeps(CollectLabels(b, labels[..|labels| - 1]), DebugStringLabel, last.text, last.range, false);
    }
  }

  /** A function takes its scope as its symbol's own unless it is a prototype and the symbol has one. */
  lemma FunctionOwns(b: Binding, ws: seq<Written>, f: FunctionDeclaration, k: nat)
    requires Stores(b, ws)
    ensures var before := OwnedOf(b.symbols, k);
      OwnedOf(CollectFunction(b, f).symbols, k)
      == if k == SymbolOf(ws, FunctionName(f)) && (before.None? || !f.isPrototype) then Some(|b.scopes|) else before
  {
    hide Stores, CollectBody, AddSymbol, SymbolOf, CollectParameters;
    var scope, w := |b.scopes|, FunctionName(f);
    var (added, symbol) := AddSymbol(b, 0, w.declaration, true);
    var entered := OpenedFunction(b, f);
    NameIsSymbol(b, ws, f);
    AddKeeps(b, 0, w.declaration, true);
    AddScoped(b, 0, w.declaration, true);
    NameIsStored(b, w.declaration);
    ParametersKeep(entered, scope, ReturnParameter, f.returnParameters);
    var outputs := CollectParameters(entered, scope, ReturnParameter, f.returnParameters);
    ParametersKeep(outputs, scope, InputParameter, f.parameters);
    BodyKeeps(CollectFunctionHeader(b, f), f.body, scope, scope);
  }

  lemma NameIsStored(b: Binding, d: Declaration)
    ensures var (added, symbol) := AddSymbol(b, 0, d, true); symbol < |added.symbols|
  {
  }

  /** Another item declares what it declares, and changes nothing about the ones before it. */
  lemma DeclaresMore(items: seq<ModuleItem>, symbol: nat)
    requires items != []
    ensures var init, n := items[..|items| - 1], |items| - 1;
      forall i: nat :: i < n ==> (Declares(items, i, symbol) <==> Declares(init, i, symbol)) && items[..i] == init[..i]
    ensures forall i: nat :: Declares(items, i, symbol) ==> i < |items|
  {
    var init, n := items[..|items| - 1], |items| - 1;
    forall i: nat | i < n ensures items[..i] == init[..i] && items[i] == init[i] {
    }
  }

  lemma {:induction false} ModuleOwns(b: Binding, items: seq<ModuleItem>, k: nat)
    requires Stores(b, []) && |b.scopes| == 1 && b.symbols == []
    ensures OwnScope(items, k, OwnedOf(CollectModule(b, items).symbols, k))
  {
    hide Stores, CollectFunction, WrittenModule, ScopeCount, CollectDeclarators, CollectLabels, AddMetadata, SymbolOf, OwnScope,
      Declares;
    var after := CollectModule(b, items);
    if items == [] {
      assert OwnScope([], k, None) by { NothingDeclares(k); }
    } else {
      var init, last := items[..|items| - 1], items[|items| - 1];
      var before := CollectModule(b, init);
      ModuleOwns(b, init, k);
      ModuleStored(b, init);
      match last
      case ModuleVariables(declaration) =>
        DeclaratorsKeep(before, 0, declaration, declaration.declarators);
        OwnKept(items, k, OwnedOf(before.symbols, k));
      case FileItem(id) =>
        FileKeeps(before, id);
        OwnKept(items, k, OwnedOf(before.symbols, k));
      case DebugStringItem(section, labels) =>
        MetadataKeeps(before, DebugStringLabel, section.text, section.range, true);
        LabelsKeep(AddMetadata(before, DebugStringLabel, section.text, section.range, true), labels);
        OwnKept(items, k, OwnedOf(before.symbols, k));
      case FunctionItem(f) =>
        FunctionOwns(before, WrittenModule(init), f, k);
        OwnChanged(items, f, k, OwnedOf(before.symbols, k));
    }
  }

  lemma NothingDeclares(k: nat)
    ensures OwnScope([], k, None)
  {
  }

  lemma FileKeeps(b: Binding, id: Identifier)
    ensures KeepsOwned(b.symbols, CollectFile(b, id).symbols)
  {
    hide AddMetadata;
    var magnitude := IntegerMagnitude.Magnitude(id.text);
    if magnitude.Some? {
      MetadataKeeps(b, DebugFile, MemberNames.Decimal(magnitude.value), id.range, false);
    }
  }

  lemma OwnKept(items: seq<ModuleItem>, k: nat, owned: Option<nat>)
    requires items != [] && !items[|items| - 1].FunctionItem? && OwnScope(items[..|items| - 1], k, owned)
    ensures OwnScope(items, k, owned)
  {
    hide WrittenModule, ScopeCount, SymbolOf;
    DeclaresMore(items, k);
    if owned.Some? {
      OwnWitness(items, k, owned.value);
    }
  }

  /** A witness among the items before the last stays one if the last does not define the symbol. */
  lemma OwnWitness(items: seq<ModuleItem>, k: nat, scope: nat)
    requires items != [] && OwnScope(items[..|items| - 1], k, Some(scope)) && !Defines(items, |items| - 1, k)
    ensures OwnScope(items, k, Some(scope))
  {
    hide WrittenModule, ScopeCount, SymbolOf, Declares;
    var init := items[..|items| - 1];
    DeclaresMore(items, k);
    DeclaresWithin(init, k);
    var i: nat :| Declares(init, i, k) && scope == ScopeCount(init[..i])
      && if Defines(init, i, k) then forall j: nat :: i < j ==> !Defines(init, j, k)
         else forall j: nat :: !Defines(init, j, k) && (j < i ==> !Declares(init, j, k));
    assert Declares(items, i, k);
    forall j: nat | Defines(items, j, k) ensures j < |init| && Defines(init, j, k) {
      if j < |init| {
        assert items[j] == init[j];
      }
    }
    assert items[i] == init[i];
  }

  lemma DeclaresWithin(items: seq<ModuleItem>, symbol: nat)
    ensures forall i: nat :: Declares(items, i, symbol) ==> i < |items|
  {
  }

  lemma OwnChanged(items: seq<ModuleItem>, f: FunctionDeclaration, k: nat, owned: Option<nat>)
    requires items != [] && items[|items| - 1] == FunctionItem(f) && OwnScope(items[..|items| - 1], k, owned)
    ensures var init := items[..|items| - 1];
      OwnScope(items, k, if k == SymbolOf(WrittenModule(init), FunctionName(f)) && (owned.None? || !f.isPrototype)
                         then Some(ScopeCount(init)) else owned)
  {
    hide WrittenModule, ScopeCount, SymbolOf;
    var init, n := items[..|items| - 1], |items| - 1;
    var mine := k == SymbolOf(WrittenModule(init), FunctionName(f));
    DeclaresMore(items, k);
    assert Declares(items, n, k) <==> mine;
    if mine && (owned.None? || !f.isPrototype) {
      assert items[..n] == init;
      forall j: nat | n < j ensures !Defines(items, j, k) {
      }
      if f.isPrototype {
        forall j: nat ensures !Defines(items, j, k) && (j < n ==> !Declares(items, j, k)) {
          if j < n {
            assert !Declares(init, j, k);
          }
        }
      }
      assert Declares(items, n, k) && ScopeCount(init) == ScopeCount(items[..n]);
    } else if owned.Some? {
      OwnWitness(items, k, owned.value);
    }
  }

  /**
   * A bound module has exactly the scopes of its text, functions below the module and blocks below what they stand in, and
   * every symbol owns the scope of its last definition, or of its first prototype if it has no definition.
   */
  lemma ScopesAreWritten(items: seq<ModuleItem>, specials: set<string>, k: nat)
    requires NamedModule(items) && BindSymbols(items, specials).Some?
    ensures BindSymbols(items, specials).value.scopes == ModuleScopes(items)
    ensures OwnScope(items, k, OwnedOf(BindSymbols(items, specials).value.symbols, k))
  {
    hide Sound, NamedModule, BindSymbols, AllResolvedLinearly, SpellingsDisjoint, WrittenModule, Reported, OwnScope,
      ModuleScopes, Firsts, Repetitions;
    var initial := IndexEvents(InitialBinding(), ModuleEvents(items));
    IndexEventsSound(ModuleEvents(items));
    NothingReported();
    NothingWritten();
    ModuleScoped(initial, items);
    ModuleOwns(initial, items, k);
    BoundModuleIsSound(items, specials);
  }

  lemma NothingWritten()
    ensures Firsts([]) == [] && Repetitions([]) == []
  {
  }
}
