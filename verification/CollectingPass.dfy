/** What the collecting pass keeps, over every module: a well-formed table that only grows. */
module CollectingPass {
  import opened Common
  import opened MemberNames
  import opened Symbols
  import opened ScopeIndex
  import opened LexicalBinding
  import opened BindingPass

  /** Every recorded occurrence belongs to its symbol and carries the order of its source range. */
  ghost predicate OrdersRecorded(b: Binding) {
    forall s, i :: 0 <= s < |b.occurrences| && 0 <= i < |b.occurrences[s]| ==>
      b.occurrences[s][i].symbol == s && b.occurrences[s][i].lexicalOrder == Get(b.sourceOrders, b.occurrences[s][i].range)
  }

  /** Only lexical declarations occur. */
  ghost predicate MetadataNeverOccurs(b: Binding) {
    forall s :: 0 <= s < |b.symbols| && s < |b.occurrences| && b.symbols[s].IsMetadata() ==> b.occurrences[s] == []
  }

  ghost predicate Sound(b: Binding) {
    WellFormed(b) && OrdersRecorded(b) && MetadataNeverOccurs(b)
  }

  /** The step keeps the table sound, its scopes and diagnostics only grow, its source orders are fixed. */
  ghost predicate Grows(b: Binding, after: Binding) {
    && Sound(after) && b.scopes <= after.scopes && |b.symbols| <= |after.symbols|
    && after.sourceOrders == b.sourceOrders && b.diagnostics <= after.diagnostics && after.references == b.references
  }

  // The lexer never makes an empty identifier, so declared names are nonempty.

  ghost predicate NamedDeclarators(ds: seq<Declarator>) {
    forall d :: d in ds ==> d.name.text != ""
  }

  ghost predicate NamedBody(body: seq<BodyItem>)
    decreases body
  {
    forall i :: 0 <= i < |body| ==> NamedItem(body[i])
  }

  ghost predicate NamedItem(item: BodyItem)
    decreases item
  {
    match item
    case VariablesItem(declaration) => NamedDeclarators(declaration.declarators)
    case LabelItem(name) => name.text != ""
    case CallPrototypeItem(name) => name.text != ""
    case CallTargetsItem(name) => name.text != ""
    case BranchTargetsItem(name) => name.text != ""
    case InstructionItem(_, _) => true
    case BlockItem(_, body) => NamedBody(body)
  }

  ghost predicate NamedFunction(f: FunctionDeclaration) {
    && f.name.text != ""
    && (forall p :: p in f.returnParameters ==> p.name.text != "")
    && (forall p :: p in f.parameters ==> p.name.text != "")
    && NamedBody(f.body)
  }

  ghost predicate NamedModule(items: seq<ModuleItem>) {
    forall i :: 0 <= i < |items| ==>
      match items[i]
      case ModuleVariables(declaration) => NamedDeclarators(declaration.declarators)
      case FunctionItem(f) => NamedFunction(f)
      case _ => true
  }

  // ---- single steps -----------------------------------------------------------------------------

  lemma AddSymbolGrows(b: Binding, scope: nat, d: Declaration, allow: bool)
    requires Sound(b) && scope < |b.scopes| && d.declared.name != ""
    requires !d.kind.DebugFile? && !d.kind.DebugStringLabel?
    ensures var (after, id) := AddSymbol(b, scope, d, allow);
      && Grows(b, after) && id < |after.symbols| && after.scopes == b.scopes
      && Matches(Exactly(scope, d.declared), after.symbols[id])
  {
    hide WellFormed;
    AddSymbolKeeps(b, scope, d, allow);
    StoredOccurrences(b);
  }

  lemma StoredOccurrences(b: Binding)
    requires WellFormed(b)
    ensures |b.occurrences| == |b.symbols| && |b.scopes| > 0 && ScopesNest(b.scopes)
  {
    hide MeetingsReported, ReportsTrue;
  }

  lemma RecordGrows(b: Binding, symbol: nat, range: SourceRange, variableRange: Option<SourceRange>)
    requires Sound(b) && symbol < |b.symbols| && !b.symbols[symbol].IsMetadata()
    ensures var after := RecordOccurrence(b, symbol, range, variableRange); Grows(b, after) && after.scopes == b.scopes
  {
    hide WellFormed;
    StoredOccurrences(b);
    SameDeclarationsKeep(b, RecordOccurrence(b, symbol, range, variableRange));
  }

  lemma DiagnoseGrows(b: Binding, d: BindDiagnostic)
    requires Sound(b) && NamesStored(b.symbols, d)
    ensures Grows(b, b.(diagnostics := b.diagnostics + [d]))
  {
    hide WellFormed, NamesStored;
    SameDeclarationsKeep(b, b.(diagnostics := b.diagnostics + [d]));
  }

  lemma CollectDeclaratorGrows(b: Binding, scope: nat, declaration: VariableDeclaration, d: Declarator)
    requires Sound(b) && scope < |b.scopes| && d.name.text != ""
    ensures Grows(b, CollectDeclarator(b, scope, declaration, d))
    ensures CollectDeclarator(b, scope, declaration, d).scopes == b.scopes
  {
    var kind := if scope != 0 && declaration.inParameterSpace then CallParameter else Variable;
    var (counted, count) := ParameterizedCount(b, d.count);
    if d.count.Some? {
      DiagnoseGrows(b, InvalidParameterizedCount(d.count.value.range));
    }
    var full := Declaration(kind, DeclaredName(d.name.text, count), d.name.range, declaration.linkage, d.dimensions != []);
    AddSymbolGrows(counted, scope, full, scope == 0);
    var (added, symbol) := AddSymbol(counted, scope, full, scope == 0);
    RecordGrows(added, symbol, d.name.range, Some(d.range));
  }

  lemma {:induction false} CollectDeclaratorsGrow(b: Binding, scope: nat, declaration: VariableDeclaration,
                                                  ds: seq<Declarator>)
    requires Sound(b) && scope < |b.scopes| && NamedDeclarators(ds)
    ensures Grows(b, CollectDeclarators(b, scope, declaration, ds))
    ensures CollectDeclarators(b, scope, declaration, ds).scopes == b.scopes
  {
    if ds != [] {
      CollectDeclaratorsGrow(b, scope, declaration, ds[..|ds| - 1]);
      CollectDeclaratorGrows(CollectDeclarators(b, scope, declaration, ds[..|ds| - 1]), scope, declaration, ds[|ds| - 1]);
    }
  }

  lemma PushScopeGrows(b: Binding, scope: Scope)
    requires Sound(b) && scope.id == |b.scopes| && (scope.parent.Some? ==> scope.parent.value < |b.scopes|)
    ensures Grows(b, b.(scopes := b.scopes + [scope]))
  {
    hide MeetingsReported, ReportsTrue;
  }

  lemma {:induction false} CollectBodyGrows(b: Binding, body: seq<BodyItem>, functionScope: nat, lexicalScope: nat)
    requires Sound(b) && functionScope < |b.scopes| && lexicalScope < |b.scopes| && NamedBody(body)
    ensures Grows(b, CollectBody(b, body, functionScope, lexicalScope))
    decreases body
  {
    if body != [] {
      var init := body[..|body| - 1];
      CollectBodyGrows(b, init, functionScope, lexicalScope);
      assert NamedItem(body[|body| - 1]);
      CollectItemGrows(CollectBody(b, init, functionScope, lexicalScope), body[|body| - 1], functionScope, lexicalScope);
    }
  }

  lemma {:induction false} CollectItemGrows(b: Binding, item: BodyItem, functionScope: nat, lexicalScope: nat)
    requires Sound(b) && functionScope < |b.scopes| && lexicalScope < |b.scopes| && NamedItem(item)
    ensures Grows(b, CollectItem(b, item, functionScope, lexicalScope))
    ensures !item.BlockItem? ==> CollectItem(b, item, functionScope, lexicalScope).scopes == b.scopes
    decreases item
  {
    match item
    case VariablesItem(declaration) =>
      CollectDeclaratorsGrow(b, lexicalScope, declaration, declaration.declarators);
    case LabelItem(name) => AddOrdinaryGrows(b, functionScope, Label, name);
    case CallPrototypeItem(name) => AddOrdinaryGrows(b, functionScope, CallPrototype, name);
    case CallTargetsItem(name) => AddOrdinaryGrows(b, functionScope, CallTargetSet, name);
    case BranchTargetsItem(name) =>
      AddOrdinaryGrows(b, functionScope, BranchTargetSet, name);
      var (added, symbol) := AddOrdinary(b, functionScope, BranchTargetSet, name);
      RecordGrows(added, symbol, name.range, None);
    case InstructionItem(_, _) =>
    case BlockItem(range, body) =>
      PushScopeGrows(b, Scope(|b.scopes|, BlockScope, Some(lexicalScope), None, Some(range)));
      CollectBodyGrows(AddBlockScope(b, lexicalScope, range), body, functionScope, |b.scopes|);
  }

  lemma AddOrdinaryGrows(b: Binding, scope: nat, kind: SymbolKind, name: Identifier)
    requires Sound(b) && scope < |b.scopes| && name.text != "" && !kind.DebugFile? && !kind.DebugStringLabel?
    ensures var (after, id) := AddOrdinary(b, scope, kind, name);
      && Grows(b, after) && id < |after.symbols| && after.scopes == b.scopes
      && Matches(Exactly(scope, DeclaredName(name.text, None)), after.symbols[id])
  {
    AddSymbolGrows(b, scope, Declaration(kind, DeclaredName(name.text, None), name.range, NoLinkage, false), false);
  }

  lemma {:induction false} CollectParametersGrow(b: Binding, scope: nat, kind: SymbolKind, ps: seq<Parameter>)
    requires Sound(b) && scope < |b.scopes| && !kind.DebugFile? && !kind.DebugStringLabel?
    requires forall p :: p in ps ==> p.name.text != ""
    ensures Grows(b, CollectParameters(b, scope, kind, ps)) && CollectParameters(b, scope, kind, ps).scopes == b.scopes
  {
    if ps != [] {
      var init, p := ps[..|ps| - 1], ps[|ps| - 1];
      CollectParametersGrow(b, scope, kind, init);
      AddSymbolGrows(CollectParameters(b, scope, kind, init), scope,
        Declaration(kind, DeclaredName(p.name.text, None), p.name.range, NoLinkage, p.dimensions != []), false);
    }
  }

  lemma AddFunctionScopeGrows(b: Binding, owner: nat, range: SourceRange, prefer: bool)
    requires Sound(b)
    ensures Grows(b, AddFunctionScope(b, owner, range, prefer))
  {
    var scope := Scope(|b.scopes|, FunctionScope, Some(0), Some(owner), Some(range));
    var after := AddFunctionScope(b, owner, range, prefer);
    SameDeclarationsKeep(b, b.(symbols := after.symbols));
    PushScopeGrows(b.(symbols := after.symbols), scope);
  }

  lemma CollectFunctionHeaderGrows(b: Binding, f: FunctionDeclaration)
    requires Sound(b) && NamedFunction(f)
    ensures var after := CollectFunctionHeader(b, f);
      Grows(b, after) && |after.scopes| == |b.scopes| + 1 && after.scopes[|b.scopes|].kind == FunctionScope
  {
    var d := Declaration(SymbolKind.Function, DeclaredName(f.name.text, None), f.name.range, f.linkage, false);
    AddSymbolGrows(b, 0, d, true);
    var (added, symbol) := AddSymbol(b, 0, d, true);
    AddFunctionScopeGrows(added, symbol, f.range, !f.isPrototype);
    var scoped := AddFunctionScope(added, symbol, f.range, !f.isPrototype);
    RecordGrows(scoped, symbol, f.name.range, None);
    var recorded := RecordOccurrence(scoped, symbol, f.name.range, None);
    CollectParametersGrow(recorded, |b.scopes|, ReturnParameter, f.returnParameters);
    CollectParametersGrow(CollectParameters(recorded, |b.scopes|, ReturnParameter, f.returnParameters), |b.scopes|,
      InputParameter, f.parameters);
  }

  lemma CollectFunctionGrows(b: Binding, f: FunctionDeclaration)
    requires Sound(b) && NamedFunction(f)
    ensures Grows(b, CollectFunction(b, f)) && |CollectFunction(b, f).scopes| > |b.scopes|
  {
    CollectFunctionHeaderGrows(b, f);
    CollectBodyGrows(CollectFunctionHeader(b, f), f.body, |b.scopes|, |b.scopes|);
  }

  /** Metadata takes a symbol id but, being no lexical declaration, leaves every scope's spellings alone. */
  lemma AddMetadataGrows(b: Binding, kind: SymbolKind, name: string, range: SourceRange, idempotent: bool)
    requires Sound(b) && (kind.DebugFile? || kind.DebugStringLabel?)
    ensures Grows(b, AddMetadata(b, kind, name, range, idempotent))
    ensures AddMetadata(b, kind, name, range, idempotent).scopes == b.scopes
  {
    var previous := FindMetadata(b.symbols, kind, name);
    if previous.None? {
      MoreMetadata(b, kind, name, range);
    } else if !idempotent {
      DiagnoseGrows(b, DuplicateSymbol(range, b.symbols[previous.value].declarationRange, false));
    }
  }

  lemma MoreMetadata(b: Binding, kind: SymbolKind, name: string, range: SourceRange)
    requires Sound(b) && (kind.DebugFile? || kind.DebugStringLabel?)
    ensures var s := Symbol(|b.symbols|, 0, kind, name, range, NoLinkage, false, None, None);
      Grows(b, b.(symbols := b.symbols + [s], occurrences := b.occurrences + [[]]))
  {
    hide MeetingsReported, ReportsTrue;
    MoreReports(b.symbols, Symbol(|b.symbols|, 0, kind, name, range, NoLinkage, false, None, None), b.diagnostics,
      b.diagnostics);
  }

  lemma {:induction false} CollectLabelsGrow(b: Binding, labels: seq<Identifier>)
    requires Sound(b)
    ensures Grows(b, CollectLabels(b, labels)) && CollectLabels(b, labels).scopes == b.scopes
  {
    if labels != [] {
      var init, last := labels[..|labels| - 1], labels[|labels| - 1];
      CollectLabelsGrow(b, init);
      AddMetadataGrows(CollectLabels(b, init), DebugStringLabel, last.text, last.range, false);
    }
  }

  lemma CollectModuleItemGrows(b: Binding, item: ModuleItem)
    requires Sound(b) && NamedModule([item])
    ensures Grows(b, CollectModuleItem(b, item))
    ensures !item.FunctionItem? ==> CollectModuleItem(b, item).scopes == b.scopes
  {
    assert [item][0] == item;
    match item
    case ModuleVariables(declaration) => CollectDeclaratorsGrow(b, 0, declaration, declaration.declarators);
    case FileItem(fileIndex) =>
      var magnitude := IntegerMagnitude.Magnitude(fileIndex.text);
      if magnitude.None? {
        DiagnoseGrows(b, InvalidDebugFileId(fileIndex.range));
      } else {
        AddMetadataGrows(b, DebugFile, Decimal(magnitude.value), fileIndex.range, false);
      }
    case DebugStringItem(section, labels) =>
      AddMetadataGrows(b, DebugStringLabel, section.text, section.range, true);
      CollectLabelsGrow(AddMetadata(b, DebugStringLabel, section.text, section.range, true), labels);
    case FunctionItem(f) => CollectFunctionGrows(b, f);
  }

  /** Collecting a whole module keeps the table sound, whatever its declarations. */
  lemma {:induction false} CollectModuleGrows(b: Binding, items: seq<ModuleItem>)
    requires Sound(b) && NamedModule(items)
    ensures Grows(b, CollectModule(b, items))
  {
    if items != [] {
      var init, last := items[..|items| - 1], items[|items| - 1];
      assert forall i :: 0 <= i < |init| ==> init[i] == items[i];
      CollectModuleGrows(b, init);
      assert [last][0] == items[|items| - 1];
      CollectModuleItemGrows(CollectModule(b, init), last);
    }
  }

  lemma {:induction false} IndexEventsSound(events: seq<SourceRange>)
    ensures var b := IndexEvents(InitialBinding(), events);
      && Sound(b)
      && b == InitialBinding().(sourceOrders := b.sourceOrders, ambiguous := b.ambiguous, nextSourceOrder := b.nextSourceOrder)
  {
    if events != [] {
      IndexEventsSound(events[..|events| - 1]);
    }
  }

  /** The table after the collecting pass, for any module: sound, and disjoint exactly when no overlap was reported. */
  lemma CollectedSound(items: seq<ModuleItem>)
    requires NamedModule(items)
    ensures var b := CollectModule(IndexEvents(InitialBinding(), ModuleEvents(items)), items);
      && Sound(b)
      && (SpellingsDisjoint(b.symbols) <==> forall d :: d in b.diagnostics && d.DuplicateSymbol? ==> !d.overlapping)
  {
    hide WellFormed, SpellingsDisjoint;
    IndexEventsSound(ModuleEvents(items));
    CollectModuleGrows(IndexEvents(InitialBinding(), ModuleEvents(items)), items);
    DisjointIffUnreported(CollectModule(IndexEvents(InitialBinding(), ModuleEvents(items)), items));
  }

  /** Every scope that holds a function context exists once the module has been collected. */
  lemma {:induction false} ContextsExist(b: Binding, items: seq<ModuleItem>)
    requires Sound(b) && NamedModule(items)
    ensures forall c :: c in FunctionContexts(b, items) ==> c.scope < |CollectModule(b, items).scopes|
  {
    if items != [] {
      var init, last := items[..|items| - 1], items[|items| - 1];
      assert forall i :: 0 <= i < |init| ==> init[i] == items[i];
      ContextsExist(b, init);
      CollectModuleGrows(b, init);
      assert [last][0] == items[|items| - 1];
      CollectModuleItemGrows(CollectModule(b, init), last);
      if last.FunctionItem? {
        CollectFunctionGrows(CollectModule(b, init), last.declaredFunction);
      }
    }
  }
}
