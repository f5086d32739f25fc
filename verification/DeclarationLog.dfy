/** Conservation of declarations: every written one is recorded once, under its own symbol, and nothing else is. */
module DeclarationLog {
  import opened Common
  import opened MemberNames
  import opened Symbols
  import opened ScopeIndex
  import opened LexicalBinding
  import opened BindingPass
  import opened CollectingPass
  import opened BlockScopes
  import opened SourceOrder
  import opened BoundModule

  /** One written variable, function or branch target set, with the scope it is declared in. */
  datatype Declared = Declared(scope: nat, name: string, isGroup: bool, range: SourceRange, variableRange: Option<SourceRange>)
  {
    /** Declarations of one scope, name and form belong to one symbol. */
    predicate Names(s: Symbol) {
      !s.IsMetadata() && s.scope == scope && s.name == name && s.parameterizedCount.Some? == isGroup
    }
  }

  // ---- the written declarations -----------------------------------------------------------------

  function DeclaredVariables(ds: seq<Declarator>, scope: nat): seq<Declared> {
    if ds == [] then []
    else
      var d := ds[|ds| - 1];
      DeclaredVariables(ds[..|ds| - 1], scope) + [Declared(scope, d.name.text, d.count.Some?, d.name.range, Some(d.range))]
  }

  /** The declarations of a body in `scope` of a function, the body's blocks being numbered from `next` on. */
  function DeclaredBody(body: seq<BodyItem>, functionScope: nat, scope: nat, next: nat): seq<Declared>
    decreases body
  {
    if body == [] then []
    else
      var init := body[..|body| - 1];
      DeclaredBody(init, functionScope, scope, next)
      + DeclaredItem(body[|body| - 1], functionScope, scope, next + BlockCount(init))
  }

  function DeclaredItem(item: BodyItem, functionScope: nat, scope: nat, next: nat): seq<Declared>
    decreases item
  {
    match item
    case VariablesItem(declaration) => DeclaredVariables(declaration.declarators, scope)
    case BranchTargetsItem(name) => [Declared(functionScope, name.text, false, name.range, None)]
    case BlockItem(_, body) => DeclaredBody(body, functionScope, next, next + 1)
    case _ => []
  }

  function FunctionDeclared(f: FunctionDeclaration, scope: nat): seq<Declared> {
    [Declared(0, f.name.text, false, f.name.range, None)] + DeclaredBody(f.body, scope, scope, scope + 1)
  }

  /** The number of scopes of a module: its own, and one for each function and block. */
  function ScopeCount(items: seq<ModuleItem>): (n: nat)
    ensures n > 0
  {
    if items == [] then 1
    else
      ScopeCount(items[..|items| - 1]) +
      match items[|items| - 1]
      case FunctionItem(f) => 1 + BlockCount(f.body)
      case _ => 0
  }

  function DeclaredModule(items: seq<ModuleItem>): seq<Declared> {
    if items == [] then []
    else
      DeclaredModule(items[..|items| - 1]) +
      match items[|items| - 1]
      case ModuleVariables(declaration) => DeclaredVariables(declaration.declarators, 0)
      case FunctionItem(f) => FunctionDeclared(f, ScopeCount(items[..|items| - 1]))
      case _ => []
  }

  // ---- the recorded occurrences -----------------------------------------------------------------

  function Entry(s: Symbol, o: Occurrence): Declared {
    Declared(s.scope, s.name, s.parameterizedCount.Some?, o.range, o.variableRange)
  }

  ghost function Entries(s: Symbol, os: seq<Occurrence>): multiset<Declared> {
    if os == [] then multiset{} else Entries(s, os[..|os| - 1]) + multiset{Entry(s, os[|os| - 1])}
  }

  /** All that is recorded, symbol by symbol. */
  ghost function Logged(symbols: seq<Symbol>, occurrences: seq<seq<Occurrence>>): multiset<Declared>
    requires |symbols| == |occurrences|
  {
    if symbols == [] then multiset{}
    else
      var n := |symbols| - 1;
      Logged(symbols[..n], occurrences[..n]) + Entries(symbols[n], occurrences[n])
  }

  ghost function Log(b: Binding): multiset<Declared>
    requires |b.symbols| == |b.occurrences|
  {
    Logged(b.symbols, b.occurrences)
  }

  lemma {:induction false} SameEntries(s: Symbol, t: Symbol, os: seq<Occurrence>)
    requires s.scope == t.scope && s.Declared() == t.Declared()
    ensures Entries(s, os) == Entries(t, os)
  {
    if os != [] {
      SameEntries(s, t, os[..|os| - 1]);
    }
  }

  lemma {:induction false} SameLog(before: seq<Symbol>, after: seq<Symbol>, occurrences: seq<seq<Occurrence>>)
    requires SameDeclarations(before, after) && |before| == |occurrences|
    ensures Logged(after, occurrences) == Logged(before, occurrences)
    decreases |before|
  {
    hide Entries;
    if before != [] {
      var n := |before| - 1;
      SameLog(before[..n], after[..n], occurrences[..n]);
      SameEntries(before[n], after[n], occurrences[n]);
    }
  }

  /** Symbols without occurrences add nothing. */
  lemma {:induction false} SymbolsUnlogged(symbols: seq<Symbol>, occurrences: seq<seq<Occurrence>>,
                                           more: seq<Symbol>, later: seq<seq<Occurrence>>)
    requires |symbols| == |occurrences| && |more| == |later| && symbols <= more && occurrences <= later
    requires forall i :: |occurrences| <= i < |later| ==> later[i] == []
    ensures Logged(more, later) == Logged(symbols, occurrences)
    decreases |more|
  {
    if |more| == |symbols| {
      assert more == symbols && later == occurrences;
    } else {
      var n := |more| - 1;
      SymbolsUnlogged(symbols, occurrences, more[..n], later[..n]);
    }
  }

  /** Recording one occurrence adds one entry, under the symbol's own name. */
  lemma {:induction false} OccurrenceLogged(symbols: seq<Symbol>, occurrences: seq<seq<Occurrence>>, symbol: nat,
                                            o: Occurrence)
    requires |symbols| == |occurrences| && symbol < |symbols|
    ensures Logged(symbols, occurrences[symbol := occurrences[symbol] + [o]])
      == Logged(symbols, occurrences) + multiset{Entry(symbols[symbol], o)}
    decreases |symbols|
  {
    hide Entries;
    var n := |symbols| - 1;
    var after := occurrences[symbol := occurrences[symbol] + [o]];
    if symbol == n {
      assert after[..n] == occurrences[..n];
      EntriesAppend(symbols[n], occurrences[n], o);
    } else {
      assert after[..n] == occurrences[..n][symbol := occurrences[..n][symbol] + [o]];
      OccurrenceLogged(symbols[..n], occurrences[..n], symbol, o);
    }
  }

  lemma EntriesAppend(s: Symbol, os: seq<Occurrence>, o: Occurrence)
    ensures Entries(s, os + [o]) == Entries(s, os) + multiset{Entry(s, o)}
  {
    assert (os + [o])[..|os|] == os;
  }

  // ---- the collecting pass keeps account --------------------------------------------------------

  /** Every added declaration is logged once, and so many scopes are added. */
  ghost predicate Accounts(b: Binding, after: Binding, written: seq<Declared>, scopes: nat)
    requires |b.symbols| == |b.occurrences|
  {
    |after.symbols| == |after.occurrences| && Log(after) == Log(b) + multiset(written) && |after.scopes| == |b.scopes| + scopes
  }

  lemma AccountsBoth(a: Binding, b: Binding, c: Binding, first: seq<Declared>, second: seq<Declared>, n: nat, m: nat)
    requires |a.symbols| == |a.occurrences| && |b.symbols| == |b.occurrences|
    requires Accounts(a, b, first, n) && Accounts(b, c, second, m)
    ensures Accounts(a, c, first + second, n + m)
  {
    hide Log;
  }

  lemma AddSymbolAccounts(b: Binding, scope: nat, d: Declaration, allow: bool)
    requires |b.symbols| == |b.occurrences|
    ensures var (after, id) := AddSymbol(b, scope, d, allow); Accounts(b, after, [], 0)
  {
    hide Logged;
    var (after, id) := AddSymbol(b, scope, d, allow);
    if FirstMatch(b.symbols, Exactly(scope, d.declared)).Some? {
      SameLog(b.symbols, after.symbols, b.occurrences);
    } else {
      SymbolsUnlogged(b.symbols, b.occurrences, after.symbols, after.occurrences);
    }
  }

  lemma RecordAccounts(b: Binding, symbol: nat, range: SourceRange, variableRange: Option<SourceRange>)
    requires |b.symbols| == |b.occurrences| && symbol < |b.symbols|
    ensures var s := b.symbols[symbol];
      Accounts(b, RecordOccurrence(b, symbol, range, variableRange),
               [Declared(s.scope, s.name, s.parameterizedCount.Some?, range, variableRange)], 0)
  {
    hide Logged;
    OccurrenceLogged(b.symbols, b.occurrences, symbol,
      Occurrence(symbol, range, Get(b.sourceOrders, range), variableRange));
  }

  /** A declaration that is added and recorded is logged under its own scope, name and form. */
  lemma DeclarationAccounts(b: Binding, scope: nat, d: Declaration, allow: bool, variableRange: Option<SourceRange>)
    requires Sound(b) && scope < |b.scopes| && d.declared.name != "" && !d.kind.DebugFile? && !d.kind.DebugStringLabel?
    requires |b.symbols| == |b.occurrences|
    ensures var (added, symbol) := AddSymbol(b, scope, d, allow);
      Accounts(b, RecordOccurrence(added, symbol, d.range, variableRange),
               [Declared(scope, d.declared.name, d.declared.count.Some?, d.range, variableRange)], 0)
  {
    hide Sound, WellFormed, AddSymbol, Accounts;
    AddSymbolGrows(b, scope, d, allow);
    var (added, symbol) := AddSymbol(b, scope, d, allow);
    AddSymbolAccounts(b, scope, d, allow);
    Balanced(b, added, [], 0);
    RecordAccounts(added, symbol, d.range, variableRange);
    var written := [Declared(scope, d.declared.name, d.declared.count.Some?, d.range, variableRange)];
    AccountsBoth(b, added, RecordOccurrence(added, symbol, d.range, variableRange), [], written, 0, 0);
    assert [] + written == written;
  }

  lemma NothingTwice()
    ensures var none: seq<Declared> := []; none + none == none
  {
  }

  lemma Balanced(b: Binding, after: Binding, written: seq<Declared>, scopes: nat)
    requires |b.symbols| == |b.occurrences| && Accounts(b, after, written, scopes)
    ensures |after.symbols| == |after.occurrences| && |after.scopes| == |b.scopes| + scopes
  {
  }

  lemma SoundIsBalanced(b: Binding)
    requires Sound(b)
    ensures |b.symbols| == |b.occurrences|
  {
    StoredOccurrences(b);
  }

  /** A step that leaves symbols, occurrences and scopes alone accounts for nothing. */
  lemma NothingWritten(b: Binding, after: Binding)
    requires |b.symbols| == |b.occurrences|
    requires after.symbols == b.symbols && after.occurrences == b.occurrences && after.scopes == b.scopes
    ensures Accounts(b, after, [], 0)
  {
  }

  lemma DeclaratorAccounts(b: Binding, scope: nat, declaration: VariableDeclaration, d: Declarator)
    requires Sound(b) && scope < |b.scopes| && d.name.text != "" && |b.symbols| == |b.occurrences|
    ensures Accounts(b, CollectDeclarator(b, scope, declaration, d),
                     [Declared(scope, d.name.text, d.count.Some?, d.name.range, Some(d.range))], 0)
  {
    hide Sound, AddSymbol, RecordOccurrence, Log;
    var kind := if scope != 0 && declaration.inParameterSpace then CallParameter else Variable;
    var (counted, count) := ParameterizedCount(b, d.count);
    CountedSound(b, d.count);
    var full := Declaration(kind, DeclaredName(d.name.text, count), d.name.range, declaration.linkage, d.dimensions != []);
    DeclarationAccounts(counted, scope, full, scope == 0, Some(d.range));
    assert Log(counted) == Log(b) by { SameBooks(b, counted); }
  }

  lemma SameBooks(b: Binding, after: Binding)
    requires |b.symbols| == |b.occurrences| && after.symbols == b.symbols && after.occurrences == b.occurrences
    ensures Log(after) == Log(b)
  {
  }

  lemma CountedSound(b: Binding, count: Option<Identifier>)
    requires Sound(b)
    ensures var (counted, n) := ParameterizedCount(b, count);
      && Sound(counted) && counted.symbols == b.symbols && counted.occurrences == b.occurrences && counted.scopes == b.scopes
      && n.Some? == count.Some?
  {
    hide Sound;
    if count.Some? {
      DiagnoseGrows(b, InvalidParameterizedCount(count.value.range));
    }
  }

  lemma {:induction false} DeclaratorsAccount(b: Binding, scope: nat, declaration: VariableDeclaration, ds: seq<Declarator>)
    requires Sound(b) && scope < |b.scopes| && NamedDeclarators(ds) && |b.symbols| == |b.occurrences|
    ensures Accounts(b, CollectDeclarators(b, scope, declaration, ds), DeclaredVariables(ds, scope), 0)
  {
    hide Sound, Accounts, CollectDeclarator;
    if ds == [] {
      NothingWritten(b, b);
    } else {
      var init, d := ds[..|ds| - 1], ds[|ds| - 1];
      var before := CollectDeclarators(b, scope, declaration, init);
      CollectDeclaratorsGrow(b, scope, declaration, init);
      SoundIsBalanced(before);
      DeclaratorsAccount(b, scope, declaration, init);
      DeclaratorAccounts(before, scope, declaration, d);
      AccountsBoth(b, before, CollectDeclarators(b, scope, declaration, ds), DeclaredVariables(init, scope),
        [Declared(scope, d.name.text, d.count.Some?, d.name.range, Some(d.range))], 0, 0);
    }
  }

  lemma BlockScopeAccounts(b: Binding, parent: nat, range: SourceRange)
    requires |b.symbols| == |b.occurrences|
    ensures Accounts(b, AddBlockScope(b, parent, range), [], 1)
  {
  }

  lemma {:induction false} BodyAccounts(b: Binding, body: seq<BodyItem>, functionScope: nat, scope: nat)
    requires Sound(b) && functionScope < |b.scopes| && scope < |b.scopes| && NamedBody(body) && |b.symbols| == |b.occurrences|
    ensures Accounts(b, CollectBody(b, body, functionScope, scope), DeclaredBody(body, functionScope, scope, |b.scopes|),
                     BlockCount(body))
    decreases body
  {
    hide Sound, Accounts, CollectItem, DeclaredItem;
    if body == [] {
      NothingWritten(b, b);
    } else {
      var init, last := body[..|body| - 1], body[|body| - 1];
      var before := CollectBody(b, init, functionScope, scope);
      CollectBodyGrows(b, init, functionScope, scope);
      SoundIsBalanced(before);
      BodyAccounts(b, init, functionScope, scope);
      Balanced(b, before, DeclaredBody(init, functionScope, scope, |b.scopes|), BlockCount(init));
      assert NamedItem(last);
      ItemAccounts(before, last, functionScope, scope);
      AccountsBoth(b, before, CollectBody(b, body, functionScope, scope), DeclaredBody(init, functionScope, scope, |b.scopes|),
        DeclaredItem(last, functionScope, scope, |before.scopes|), BlockCount(init), ItemBlocks(last));
    }
  }

  lemma {:induction false} ItemAccounts(b: Binding, item: BodyItem, functionScope: nat, scope: nat)
    requires Sound(b) && functionScope < |b.scopes| && scope < |b.scopes| && NamedItem(item) && |b.symbols| == |b.occurrences|
    ensures Accounts(b, CollectItem(b, item, functionScope, scope), DeclaredItem(item, functionScope, scope, |b.scopes|),
                     ItemBlocks(item))
    decreases item
  {
    hide Sound, Accounts, CollectDeclarators, AddSymbol, RecordOccurrence, CollectBody, DeclaredBody, BlockCount, AddBlockScope;
    NothingWritten(b, b);
    match item
    case VariablesItem(declaration) => DeclaratorsAccount(b, scope, declaration, declaration.declarators);
    case LabelItem(name) => AddSymbolAccounts(b, functionScope, Named(Label, name), false);
    case CallPrototypeItem(name) => AddSymbolAccounts(b, functionScope, Named(CallPrototype, name), false);
    case CallTargetsItem(name) => AddSymbolAccounts(b, functionScope, Named(CallTargetSet, name), false);
    case BranchTargetsItem(name) => DeclarationAccounts(b, functionScope, Named(BranchTargetSet, name), false, None);
    case InstructionItem(_, _) =>
    case BlockItem(range, body) =>
      var entered := AddBlockScope(b, scope, range);
      BlockScopeAccounts(b, scope, range);
      Balanced(b, entered, [], 1);
      BlockScopeSound(b, scope, range);
      BodyAccounts(entered, body, functionScope, |b.scopes|);
      var written := DeclaredBody(body, functionScope, |b.scopes|, |b.scopes| + 1);
      AccountsBoth(b, entered, CollectBody(entered, body, functionScope, |b.scopes|), [], written, 1, BlockCount(body));
      assert [] + written == written;
  }

  lemma BlockScopeSound(b: Binding, scope: nat, range: SourceRange)
    requires Sound(b) && scope < |b.scopes|
    ensures Sound(AddBlockScope(b, scope, range))
  {
    hide Sound;
    PushScopeGrows(b, Scope(|b.scopes|, BlockScope, Some(scope), None, Some(range)));
  }

  /** The declaration that a bare name is collected as. */
  function Named(kind: SymbolKind, name: Identifier): Declaration {
    Declaration(kind, DeclaredName(name.text, None), name.range, NoLinkage, false)
  }

  lemma {:induction false} ParametersAccount(b: Binding, scope: nat, kind: SymbolKind, ps: seq<Parameter>)
    requires |b.symbols| == |b.occurrences|
    ensures Accounts(b, CollectParameters(b, scope, kind, ps), [], 0)
  {
    hide Accounts, AddSymbol;
    if ps == [] {
      NothingWritten(b, b);
    } else {
      var init, p := ps[..|ps| - 1], ps[|ps| - 1];
      var before := CollectParameters(b, scope, kind, init);
      ParametersAccount(b, scope, kind, init);
      Balanced(b, before, [], 0);
      AddSymbolAccounts(before, scope, Declaration(kind, DeclaredName(p.name.text, None), p.name.range, NoLinkage,
                                                   p.dimensions != []), false);
      AccountsBoth(b, before, CollectParameters(b, scope, kind, ps), [], [], 0, 0);
      NothingTwice();
    }
  }

  lemma FunctionScopeAccounts(b: Binding, owner: nat, range: SourceRange, prefer: bool)
    requires |b.symbols| == |b.occurrences|
    ensures Accounts(b, AddFunctionScope(b, owner, range, prefer), [], 1)
  {
    hide Logged;
    SameLog(b.symbols, AddFunctionScope(b, owner, range, prefer).symbols, b.occurrences);
  }

  lemma OpeningAccounts(b: Binding, f: FunctionDeclaration)
    requires Sound(b) && NamedFunction(f) && |b.symbols| == |b.occurrences|
    ensures Accounts(b, OpenedFunction(b, f), [Declared(0, f.name.text, false, f.name.range, None)], 1)
  {
    hide Sound, Accounts, AddSymbol, AddFunctionScope, RecordOccurrence, WellFormed;
    var d := Declaration(SymbolKind.Function, DeclaredName(f.name.text, None), f.name.range, f.linkage, false);
    var (added, symbol) := AddSymbol(b, 0, d, true);
    var scoped := AddFunctionScope(added, symbol, f.range, !f.isPrototype);
    ScopesExist(b);
    AddSymbolGrows(b, 0, d, true);
    AddSymbolAccounts(b, 0, d, true);
    Balanced(b, added, [], 0);
    FunctionScopeAccounts(added, symbol, f.range, !f.isPrototype);
    Balanced(added, scoped, [], 1);
    OwnerKept(added, symbol, f.range, !f.isPrototype);
    RecordAccounts(scoped, symbol, f.name.range, None);
    AccountsBoth(b, added, scoped, [], [], 0, 1);
    var written := [Declared(0, f.name.text, false, f.name.range, None)];
    AccountsBoth(b, scoped, OpenedFunction(b, f), [] + [], written, 1, 0);
    NothingTwice();
    assert [] + written == written;
  }

  lemma ScopesExist(b: Binding)
    requires Sound(b)
    ensures |b.scopes| > 0
  {
    StoredOccurrences(b);
  }

  lemma OwnerKept(b: Binding, owner: nat, range: SourceRange, prefer: bool)
    requires owner < |b.symbols|
    ensures var after := AddFunctionScope(b, owner, range, prefer).symbols;
      |after| == |b.symbols| && after[owner].scope == b.symbols[owner].scope && after[owner].Declared() == b.symbols[owner].Declared()
  {
  }

  lemma FunctionAccounts(b: Binding, f: FunctionDeclaration)
    requires Sound(b) && NamedFunction(f) && |b.symbols| == |b.occurrences|
    ensures Accounts(b, CollectFunction(b, f), FunctionDeclared(f, |b.scopes|), 1 + BlockCount(f.body))
  {
    hide Sound, Accounts, OpenedFunction, CollectParameters, CollectBody, DeclaredBody;
    var entered, scope := OpenedFunction(b, f), |b.scopes|;
    var name := [Declared(0, f.name.text, false, f.name.range, None)];
    OpeningAccounts(b, f);
    Balanced(b, entered, name, 1);
    var outputs := CollectParameters(entered, scope, ReturnParameter, f.returnParameters);
    ParametersAccount(entered, scope, ReturnParameter, f.returnParameters);
    Balanced(entered, outputs, [], 0);
    AccountsBoth(b, entered, outputs, name, [], 1, 0);
    var header := CollectFunctionHeader(b, f);
    ParametersAccount(outputs, scope, InputParameter, f.parameters);
    Balanced(outputs, header, [], 0);
    AccountsBoth(b, outputs, header, name + [], [], 1, 0);
    assert name + [] + [] == name;
    CollectFunctionHeaderGrows(b, f);
    BodyAccounts(header, f.body, scope, scope);
    AccountsBoth(b, header, CollectFunction(b, f), name, DeclaredBody(f.body, scope, scope, scope + 1), 1,
      BlockCount(f.body));
  }

  /** Metadata is no declaration: the symbols a step adds have no occurrences, and nothing else changes. */
  ghost predicate Unlogged(b: Binding, after: Binding)
    requires |b.symbols| == |b.occurrences|
  {
    |after.symbols| == |after.occurrences| && after.scopes == b.scopes
    && b.symbols <= after.symbols && b.occurrences <= after.occurrences
    && forall i :: |b.occurrences| <= i < |after.occurrences| ==> after.occurrences[i] == []
  }

  lemma MetadataUnlogged(b: Binding, kind: SymbolKind, name: string, range: SourceRange, idempotent: bool)
    requires |b.symbols| == |b.occurrences|
    ensures Unlogged(b, AddMetadata(b, kind, name, range, idempotent))
  {
  }

  lemma FileUnlogged(b: Binding, fileIndex: Identifier)
    requires |b.symbols| == |b.occurrences|
    ensures Unlogged(b, CollectFile(b, fileIndex))
  {
    hide AddMetadata;
    var magnitude := IntegerMagnitude.Magnitude(fileIndex.text);
    if magnitude.Some? {
      MetadataUnlogged(b, DebugFile, Decimal(magnitude.value), fileIndex.range, false);
    }
  }

  lemma {:induction false} LabelsUnlogged(b: Binding, labels: seq<Identifier>)
    requires |b.symbols| == |b.occurrences|
    ensures Unlogged(b, CollectLabels(b, labels))
  {
    hide AddMetadata;
    if labels != [] {
      var init, last := labels[..|labels| - 1], labels[|labels| - 1];
      LabelsUnlogged(b, init);
      MetadataUnlogged(CollectLabels(b, init), DebugStringLabel, last.text, last.range, false);
    }
  }

  lemma UnloggedAccounts(b: Binding, after: Binding)
    requires |b.symbols| == |b.occurrences| && Unlogged(b, after)
    ensures Accounts(b, after, [], 0)
  {
    hide Logged;
    SymbolsUnlogged(b.symbols, b.occurrences, after.symbols, after.occurrences);
  }

  function ItemDeclared(item: ModuleItem, scopes: nat): seq<Declared> {
    match item
    case ModuleVariables(declaration) => DeclaredVariables(declaration.declarators, 0)
    case FunctionItem(f) => FunctionDeclared(f, scopes)
    case _ => []
  }

  lemma ModuleItemAccounts(b: Binding, item: ModuleItem)
    requires Sound(b) && NamedModule([item]) && |b.symbols| == |b.occurrences|
    ensures Accounts(b, CollectModuleItem(b, item), ItemDeclared(item, |b.scopes|),
                     if item.FunctionItem? then 1 + BlockCount(item.declaredFunction.body) else 0)
  {
    hide Sound, Log, Accounts, CollectDeclarators, AddMetadata, CollectLabels, CollectFunction, FunctionDeclared;
    assert [item][0] == item;
    ScopesExist(b);
    match item
    case ModuleVariables(declaration) => DeclaratorsAccount(b, 0, declaration, declaration.declarators);
    case FileItem(fileIndex) =>
      FileUnlogged(b, fileIndex);
      UnloggedAccounts(b, CollectFile(b, fileIndex));
    case DebugStringItem(section, labels) =>
      MetadataUnlogged(b, DebugStringLabel, section.text, section.range, true);
      LabelsUnlogged(AddMetadata(b, DebugStringLabel, section.text, section.range, true), labels);
      UnloggedAccounts(b, CollectModuleItem(b, item));
    case FunctionItem(f) => FunctionAccounts(b, f);
  }

  lemma {:induction false} ModuleAccounts(b: Binding, items: seq<ModuleItem>)
    requires Sound(b) && NamedModule(items) && |b.symbols| == |b.occurrences| && |b.scopes| == 1
    ensures Accounts(b, CollectModule(b, items), DeclaredModule(items), ScopeCount(items) - 1)
  {
    hide Sound, Accounts, CollectModuleItem, FunctionDeclared, DeclaredVariables;
    if items == [] {
      NothingWritten(b, b);
    } else {
      var init, last := items[..|items| - 1], items[|items| - 1];
      var before := CollectModule(b, init);
      assert NamedModule(init) && NamedModule([last]) by { NamedParts(items); }
      CollectModuleGrows(b, init);
      SoundIsBalanced(before);
      ModuleAccounts(b, init);
      Balanced(b, before, DeclaredModule(init), ScopeCount(init) - 1);
      ModuleItemAccounts(before, last);
      AccountsBoth(b, before, CollectModule(b, items), DeclaredModule(init), ItemDeclared(last, |before.scopes|),
        ScopeCount(init) - 1, if last.FunctionItem? then 1 + BlockCount(last.declaredFunction.body) else 0);
    }
  }

  lemma NamedParts(items: seq<ModuleItem>)
    requires items != [] && NamedModule(items)
    ensures NamedModule(items[..|items| - 1]) && NamedModule([items[|items| - 1]])
  {
    assert [items[|items| - 1]][0] == items[|items| - 1];
  }

  // ---- the main results -------------------------------------------------------------------------

  lemma {:induction false} EntryMembers(s: Symbol, os: seq<Occurrence>, d: Declared)
    ensures d in Entries(s, os) <==> exists i :: 0 <= i < |os| && Entry(s, os[i]) == d
  {
    if os != [] {
      var init := os[..|os| - 1];
      EntryMembers(s, init, d);
      if i :| 0 <= i < |init| && Entry(s, init[i]) == d {
        assert os[i] == init[i];
      }
    }
  }

  lemma {:induction false} LogMembers(symbols: seq<Symbol>, occurrences: seq<seq<Occurrence>>, d: Declared)
    requires |symbols| == |occurrences|
    ensures d in Logged(symbols, occurrences) <==> exists s :: 0 <= s < |symbols| && d in Entries(symbols[s], occurrences[s])
    decreases |symbols|
  {
    hide Entries;
    if symbols != [] {
      var n := |symbols| - 1;
      LogMembers(symbols[..n], occurrences[..n], d);
      if s :| 0 <= s < n && d in Entries(symbols[..n][s], occurrences[..n][s]) {
        assert symbols[s] == symbols[..n][s] && occurrences[s] == occurrences[..n][s];
      }
      if s :| 0 <= s < n && d in Entries(symbols[s], occurrences[s]) {
        assert symbols[s] == symbols[..n][s] && occurrences[s] == occurrences[..n][s];
      }
    }
  }

  /**
   * A bound module has recorded every written variable, function and branch target set once, under the symbol of its own
   * scope, name and form, and has recorded nothing else.
   */
  lemma DeclarationsRecorded(items: seq<ModuleItem>, specials: set<string>)
    requires NamedModule(items) && BindSymbols(items, specials).Some?
    ensures var b := BindSymbols(items, specials).value;
      |b.symbols| == |b.occurrences| && Logged(b.symbols, b.occurrences) == multiset(DeclaredModule(items))
  {
    hide Sound, CollectModule, DeclaredModule, IndexEvents, NamedModule, Logged;
    var start := IndexEvents(InitialBinding(), ModuleEvents(items));
    IndexEventsSound(ModuleEvents(items));
    SoundIsBalanced(start);
    ModuleAccounts(start, items);
    NothingLogged();
    BoundModuleIsSound(items, specials);
  }

  lemma NothingLogged()
    ensures Logged([], []) == multiset{}
  {
  }

  /** A symbol's recorded occurrences are exactly the written declarations of its scope, name and form. */
  lemma OccurrencesAreDeclarations(items: seq<ModuleItem>, specials: set<string>, symbol: nat, range: SourceRange,
                                   variableRange: Option<SourceRange>)
    requires NamedModule(items) && BindSymbols(items, specials).Some?
    requires symbol < |BindSymbols(items, specials).value.symbols|
    requires !BindSymbols(items, specials).value.symbols[symbol].IsMetadata()
    ensures var b := BindSymbols(items, specials).value;
      var s := b.symbols[symbol];
      && symbol < |b.occurrences|
      && ((exists i :: 0 <= i < |b.occurrences[symbol]| && b.occurrences[symbol][i].range == range
             && b.occurrences[symbol][i].variableRange == variableRange)
          <==> Declared(s.scope, s.name, s.parameterizedCount.Some?, range, variableRange) in DeclaredModule(items))
  {
    hide BindSymbols, DeclaredModule, WellFormed, Logged, Entries, NamedModule;
    DeclarationsRecorded(items, specials);
    BoundModuleIsSound(items, specials);
    var b := BindSymbols(items, specials).value;
    var s := b.symbols[symbol];
    var d := Declared(s.scope, s.name, s.parameterizedCount.Some?, range, variableRange);
    LogMembers(b.symbols, b.occurrences, d);
    EntryMembers(s, b.occurrences[symbol], d);
    if t :| 0 <= t < |b.symbols| && d in Entries(b.symbols[t], b.occurrences[t]) {
      EntryMembers(b.symbols[t], b.occurrences[t], d);
      FormsAreDistinct(b);
      assert t == symbol;
    }
    if i :| 0 <= i < |b.occurrences[symbol]| && b.occurrences[symbol][i].range == range
            && b.occurrences[symbol][i].variableRange == variableRange {
      assert Entry(s, b.occurrences[symbol][i]) == d;
    }
  }

  lemma FormsAreDistinct(b: Binding)
    requires Sound(b)
    ensures FormsDistinct(b.symbols) && MetadataNeverOccurs(b)
  {
    hide MeetingsReported, ReportsTrue;
  }

  /**
   * The table's answer about earlier declarations, in terms of the module's text: yes exactly when a declaration of the
   * symbol's scope, name and form precedes the use; no exactly when every such declaration is known not to.
   */
  lemma PriorDeclarationInModule(items: seq<ModuleItem>, specials: set<string>, symbol: nat, use: SourceRange)
    requires NamedModule(items) && BindSymbols(items, specials).Some?
    requires symbol < |BindSymbols(items, specials).value.symbols|
    requires !BindSymbols(items, specials).value.symbols[symbol].IsMetadata()
    ensures var b := BindSymbols(items, specials).value;
      var events, s := ModuleEvents(items), b.symbols[symbol];
      var answer := HasPriorDeclaration(b.sourceOrders, b.occurrences, symbol, use);
      && (answer == Some(true) <==> exists d :: d in DeclaredModule(items) && d.Names(s) && Precedes(events, d.range, use))
      && (answer == Some(false) <==>
            && Occurs(events, use) == 1
            && forall d :: d in DeclaredModule(items) && d.Names(s) ==>
                 Occurs(events, d.range) == 1 && !Precedes(events, d.range, use))
  {
    hide BindSymbols, DeclaredModule, Sound, NamedModule, HasPriorDeclaration, Precedes, Occurs, ModuleEvents, IndexEvents,
      SpellingsDisjoint, AllResolvedLinearly, Collected;
    BoundModuleIsSound(items, specials);
    CollectedBindable(items);
    OccurrenceRanges(items, specials, symbol);
    BoundOrders(BindSymbols(items, specials).value);
    PriorDeclarationMeaning(ModuleEvents(items), BindSymbols(items, specials).value, symbol, use);
  }

  lemma BoundOrders(b: Binding)
    requires Sound(b)
    ensures OrdersRecorded(b) && |b.occurrences| == |b.symbols|
  {
    StoredOccurrences(b);
  }

  /** A declaration at this range names the symbol. */
  ghost predicate DeclaredAt(items: seq<ModuleItem>, s: Symbol, range: SourceRange) {
    exists d :: d in DeclaredModule(items) && d.Names(s) && d.range == range
  }

  /** The ranges of a symbol's occurrences are those of the declarations that name it. */
  lemma OccurrenceRanges(items: seq<ModuleItem>, specials: set<string>, symbol: nat)
    requires NamedModule(items) && BindSymbols(items, specials).Some?
    requires symbol < |BindSymbols(items, specials).value.symbols|
    requires !BindSymbols(items, specials).value.symbols[symbol].IsMetadata()
    ensures var b := BindSymbols(items, specials).value;
      && symbol < |b.occurrences|
      && (forall i :: 0 <= i < |b.occurrences[symbol]| ==>
            DeclaredAt(items, b.symbols[symbol], b.occurrences[symbol][i].range))
      && (forall d :: d in DeclaredModule(items) && d.Names(b.symbols[symbol]) ==>
            exists i :: 0 <= i < |b.occurrences[symbol]| && b.occurrences[symbol][i].range == d.range)
  {
    hide BindSymbols, DeclaredModule, NamedModule;
    var b := BindSymbols(items, specials).value;
    var s := b.symbols[symbol];
    OccurrencesAreDeclarations(items, specials, symbol, s.declarationRange, None);
    var os := b.occurrences[symbol];
    forall i | 0 <= i < |os| ensures DeclaredAt(items, s, os[i].range) {
      OccurrencesAreDeclarations(items, specials, symbol, os[i].range, os[i].variableRange);
      assert Declared(s.scope, s.name, s.parameterizedCount.Some?, os[i].range, os[i].variableRange).Names(s);
    }
    forall d | d in DeclaredModule(items) && d.Names(s)
      ensures exists i :: 0 <= i < |os| && os[i].range == d.range
    {
      OccurrencesAreDeclarations(items, specials, symbol, d.range, d.variableRange);
    }
  }

  /**
   * A declarator's range belongs to a symbol exactly when the module writes that declarator in its scope, name
   * and form.
   */
  lemma VariableDeclarationInModule(items: seq<ModuleItem>, specials: set<string>, symbol: nat, range: SourceRange)
    requires NamedModule(items) && BindSymbols(items, specials).Some?
    requires symbol < |BindSymbols(items, specials).value.symbols|
    requires !BindSymbols(items, specials).value.symbols[symbol].IsMetadata()
    ensures var b := BindSymbols(items, specials).value;
      HasVariableDeclaration(b.occurrences, symbol, range)
      <==> exists d :: d in DeclaredModule(items) && d.Names(b.symbols[symbol]) && d.variableRange == Some(range)
  {
    hide BindSymbols, DeclaredModule, NamedModule;
    var b := BindSymbols(items, specials).value;
    var s := b.symbols[symbol];
    OccurrencesAreDeclarations(items, specials, symbol, range, None);
    var os := b.occurrences[symbol];
    if i :| 0 <= i < |os| && os[i].variableRange == Some(range) {
      OccurrencesAreDeclarations(items, specials, symbol, os[i].range, Some(range));
      assert Declared(s.scope, s.name, s.parameterizedCount.Some?, os[i].range, Some(range)).Names(s);
    }
    if d :| d in DeclaredModule(items) && d.Names(s) && d.variableRange == Some(range) {
      OccurrencesAreDeclarations(items, specials, symbol, d.range, Some(range));
    }
  }
}
