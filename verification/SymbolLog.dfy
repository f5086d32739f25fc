/** Conservation of symbols: one is stored for each name the module declares, and every forbidden repetition is reported. */
module SymbolLog {
  import opened Common
  import opened MemberNames
  import opened Symbols
  import opened LexicalBinding
  import opened BindingPass
  import opened CollectingPass
  import opened BlockScopes
  import opened BoundModule
  import opened DeclarationLog
  import opened IntegerSpellings

  /** A written declaration, or written debug metadata, and whether it may repeat an earlier one. */
  datatype Written =
    | Lexical(scope: nat, declaration: Declaration, repeatable: bool)
    | Metadata(kind: SymbolKind, name: string, range: SourceRange, repeatable: bool)
  {
    function Range(): SourceRange {
      if Lexical? then declaration.range else range
    }

    /** Lexical declarations are told apart by scope, name and form, metadata by kind and name. */
    predicate Repeats(other: Written) {
      match this
      case Lexical(scope, d, _) =>
        && other.Lexical? && other.scope == scope && other.declaration.declared.name == d.declared.name
        && other.declaration.declared.count.Some? == d.declared.count.Some?
      case Metadata(kind, name, _, _) => other.Metadata? && other.kind == kind && other.name == name
    }

    predicate Declares(inScope: nat, d: DeclaredName) {
      && Lexical? && scope == inScope && declaration.declared.name == d.name
      && declaration.declared.count.Some? == d.count.Some?
    }
  }

  // ---- what a module writes ---------------------------------------------------------------------

  /** The number a count spells, if it is a positive one below 2^32. */
  ghost predicate IsCount(text: string, v: nat) {
    Denotes(text, v) && 0 < v < 0x1_0000_0000
  }

  /** A declarator's count as it is stored: what it spells, or zero when that is no count. */
  ghost function WrittenCount(count: Option<Identifier>): Option<u32> {
    if count.None? then None
    else if exists v: nat :: IsCount(count.value.text, v) then
      var v: nat :| IsCount(count.value.text, v);
      Some(v)
    else Some(0)
  }

  /** Only at module scope may a variable be declared again. */
  ghost function WrittenVariable(scope: nat, declaration: VariableDeclaration, d: Declarator): Written {
    var kind := if scope != 0 && declaration.inParameterSpace then CallParameter else Variable;
    Lexical(scope, Declaration(kind, DeclaredName(d.name.text, WrittenCount(d.count)), d.name.range, declaration.linkage,
                               d.dimensions != []), scope == 0)
  }

  ghost function WrittenVariables(scope: nat, declaration: VariableDeclaration, ds: seq<Declarator>): seq<Written> {
    if ds == [] then []
    else WrittenVariables(scope, declaration, ds[..|ds| - 1]) + [WrittenVariable(scope, declaration, ds[|ds| - 1])]
  }

  function WrittenName(scope: nat, kind: SymbolKind, name: Identifier): Written {
    Lexical(scope, Named(kind, name), false)
  }

  function WrittenParameters(scope: nat, kind: SymbolKind, ps: seq<Parameter>): seq<Written> {
    if ps == [] then []
    else
      var p := ps[|ps| - 1];
      WrittenParameters(scope, kind, ps[..|ps| - 1])
      + [Lexical(scope, Named(kind, p.name).(isArray := p.dimensions != []), false)]
  }

  /** What a body declares in `scope` of a function, the body's blocks being numbered from `next` on. */
  ghost function WrittenBody(body: seq<BodyItem>, functionScope: nat, scope: nat, next: nat): seq<Written>
    decreases body
  {
    if body == [] then []
    else
      var init := body[..|body| - 1];
      WrittenBody(init, functionScope, scope, next)
      + WrittenItem(body[|body| - 1], functionScope, scope, next + BlockCount(init))
  }

  ghost function WrittenItem(item: BodyItem, functionScope: nat, scope: nat, next: nat): seq<Written>
    decreases item
  {
    match item
    case VariablesItem(declaration) => WrittenVariables(scope, declaration, declaration.declarators)
    case LabelItem(name) => [WrittenName(functionScope, Label, name)]
    case CallPrototypeItem(name) => [WrittenName(functionScope, CallPrototype, name)]
    case CallTargetsItem(name) => [WrittenName(functionScope, CallTargetSet, name)]
    case BranchTargetsItem(name) => [WrittenName(functionScope, BranchTargetSet, name)]
    case InstructionItem(_, _) => []
    case BlockItem(_, body) => WrittenBody(body, functionScope, next, next + 1)
  }

  /** Its name in the module, and its parameters and body in its own scope; a function may be declared again. */
  ghost function WrittenFunction(f: FunctionDeclaration, scope: nat): seq<Written> {
    [Lexical(0, Named(SymbolKind.Function, f.name).(linkage := f.linkage), true)]
    + WrittenParameters(scope, ReturnParameter, f.returnParameters) + WrittenParameters(scope, InputParameter, f.parameters)
    + WrittenBody(f.body, scope, scope, scope + 1)
  }

  function WrittenLabels(labels: seq<Identifier>): seq<Written> {
    if labels == [] then []
    else
      WrittenLabels(labels[..|labels| - 1])
      + [Metadata(DebugStringLabel, labels[|labels| - 1].text, labels[|labels| - 1].range, false)]
  }

  ghost function WrittenModuleItem(item: ModuleItem, scope: nat): seq<Written> {
    match item
    case ModuleVariables(declaration) => WrittenVariables(0, declaration, declaration.declarators)
    case FileItem(fileIndex) =>
      var magnitude := IntegerMagnitude.Magnitude(fileIndex.text);
      if magnitude.None? then [] else [Metadata(DebugFile, Decimal(magnitude.value), fileIndex.range, false)]
    case DebugStringItem(section, labels) =>
      [Metadata(DebugStringLabel, section.text, section.range, true)] + WrittenLabels(labels)
    case FunctionItem(f) => WrittenFunction(f, scope)
  }

  ghost function WrittenModule(items: seq<ModuleItem>): seq<Written> {
    if items == [] then []
    else WrittenModule(items[..|items| - 1]) + WrittenModuleItem(items[|items| - 1], ScopeCount(items[..|items| - 1]))
  }

  // ---- what they come to ------------------------------------------------------------------------

  /** Which of `ws` the declaration repeats, if it repeats one. */
  function Repeated(ws: seq<Written>, w: Written): (r: Option<nat>)
    ensures r.Some? ==> r.value < |ws| && ws[r.value].Repeats(w)
    ensures forall i :: 0 <= i < |ws| && ws[i].Repeats(w) ==> r.Some? && r.value <= i
  {
    if ws == [] then None
    else
      var earlier := Repeated(ws[..|ws| - 1], w);
      if earlier.Some? then earlier else if ws[|ws| - 1].Repeats(w) then Some(|ws| - 1) else None
  }

  /** Those that repeat no earlier one, in order. */
  function Firsts(ws: seq<Written>): seq<Written> {
    if ws == [] then []
    else
      var before, w := Firsts(ws[..|ws| - 1]), ws[|ws| - 1];
      if Repeated(before, w).Some? then before else before + [w]
  }

  /** A report for each repetition that is not allowed, beside the first that it repeats. */
  function Repetitions(ws: seq<Written>): seq<BindDiagnostic> {
    if ws == [] then []
    else
      var before, w := Firsts(ws[..|ws| - 1]), ws[|ws| - 1];
      Repetitions(ws[..|ws| - 1])
      + (if Repeated(before, w).Some? && !w.repeatable
         then [DuplicateSymbol(w.Range(), before[Repeated(before, w).value].Range(), false)] else [])
  }

  /** The reported repetitions, in order; overlaps of different names are reported otherwise. */
  function Reported(diagnostics: seq<BindDiagnostic>): seq<BindDiagnostic> {
    if diagnostics == [] then []
    else
      var d := diagnostics[|diagnostics| - 1];
      Reported(diagnostics[..|diagnostics| - 1]) + (if d.DuplicateSymbol? && !d.overlapping then [d] else [])
  }

  ghost predicate SomeArray(ws: seq<Written>, w: Written)
    requires w.Lexical?
  {
    exists i :: 0 <= i < |ws| && w.Repeats(ws[i]) && ws[i].declaration.isArray
  }

  /** A stored symbol as its first declaration has it; it is an array if any of its declarations is. */
  ghost predicate StoredAs(s: Symbol, w: Written, ws: seq<Written>) {
    match w
    case Lexical(scope, d, _) =>
      && s.scope == scope && s.kind == d.kind && !s.IsMetadata() && s.Declared() == d.declared
      && s.declarationRange == d.range && s.linkage == d.linkage
      && s.isArray == SomeArray(ws, w)
    case Metadata(kind, name, range, _) =>
      s.scope == 0 && s.kind == kind && s.IsMetadata() && s.name == name && s.declarationRange == range
  }

  /** The stored symbols are the first declarations, in order, and just the forbidden repetitions are reported as such. */
  ghost predicate Accounted(symbols: seq<Symbol>, diagnostics: seq<BindDiagnostic>, ws: seq<Written>) {
    && |symbols| == |Firsts(ws)|
    && (forall k :: 0 <= k < |symbols| ==> StoredAs(symbols[k], Firsts(ws)[k], ws))
    && Reported(diagnostics) == Repetitions(ws)
  }

  ghost predicate Stores(b: Binding, ws: seq<Written>) {
    Accounted(b.symbols, b.diagnostics, ws)
  }

  // ---- every step keeps account -----------------------------------------------------------------

  lemma FirstsAppend(ws: seq<Written>, w: Written)
    ensures Firsts(ws + [w]) == if Repeated(Firsts(ws), w).Some? then Firsts(ws) else Firsts(ws) + [w]
    ensures Repetitions(ws + [w]) == Repetitions(ws)
      + (if Repeated(Firsts(ws), w).Some? && !w.repeatable
         then [DuplicateSymbol(w.Range(), Firsts(ws)[Repeated(Firsts(ws), w).value].Range(), false)] else [])
  {
    assert (ws + [w])[..|ws|] == ws;
  }

  lemma ReportedAppend(diagnostics: seq<BindDiagnostic>, d: BindDiagnostic)
    ensures Reported(diagnostics + [d]) == Reported(diagnostics) + (if d.DuplicateSymbol? && !d.overlapping then [d] else [])
  {
    assert (diagnostics + [d])[..|diagnostics|] == diagnostics;
  }

  /** The scan over stored symbols finds the declaration that is repeated. */
  lemma ScanFindsRepeated(symbols: seq<Symbol>, ws: seq<Written>, w: Written)
    requires |symbols| == |Firsts(ws)| && forall k :: 0 <= k < |symbols| ==> StoredAs(symbols[k], Firsts(ws)[k], ws)
    requires w.Lexical?
    ensures FirstMatch(symbols, Exactly(w.scope, w.declaration.declared)) == Repeated(Firsts(ws), w)
  {
    hide FirstMatch, Repeated, Firsts;
    var q := Exactly(w.scope, w.declaration.declared);
    FirstMatchIsEarliest(symbols, q);
    forall k | 0 <= k < |symbols| ensures Matches(q, symbols[k]) <==> Firsts(ws)[k].Repeats(w) {
      assert StoredAs(symbols[k], Firsts(ws)[k], ws);
    }
  }

  lemma {:induction false} FirstsCover(ws: seq<Written>, i: nat)
    requires i < |ws|
    ensures Repeated(Firsts(ws), ws[i]).Some?
  {
    hide Repeated;
    var init := ws[..|ws| - 1];
    if i < |init| {
      FirstsCover(init, i);
      var k := Repeated(Firsts(init), ws[i]).value;
      assert Firsts(ws)[k] == Firsts(init)[k];
    } else if Repeated(Firsts(init), ws[i]).None? {
      assert Firsts(ws)[|Firsts(init)|] == ws[i];
    }
  }

  lemma {:induction false} FirstsDistinct(ws: seq<Written>)
    ensures forall i, j :: 0 <= i < j < |Firsts(ws)| ==> !Firsts(ws)[i].Repeats(Firsts(ws)[j])
  {
    hide Repeated;
    if ws != [] {
      FirstsDistinct(ws[..|ws| - 1]);
    }
  }

  lemma SomeArrayAppend(ws: seq<Written>, w: Written, v: Written)
    requires w.Lexical?
    ensures SomeArray(ws + [v], w) <==> SomeArray(ws, w) || (w.Repeats(v) && v.declaration.isArray)
  {
    if SomeArray(ws, w) {
      var i :| 0 <= i < |ws| && w.Repeats(ws[i]) && ws[i].declaration.isArray;
      assert (ws + [v])[i] == ws[i];
    }
    if w.Repeats(v) && v.declaration.isArray {
      assert (ws + [v])[|ws|] == v;
    }
  }

  /** Another declaration leaves a symbol as it is stored, except that a repetition may make it an array. */
  lemma StillStored(s: Symbol, after: Symbol, w: Written, ws: seq<Written>, v: Written)
    requires StoredAs(s, w, ws)
    requires after == if w.Lexical? && w.Repeats(v) then s.(isArray := s.isArray || v.declaration.isArray) else s
    ensures StoredAs(after, w, ws + [v])
  {
    if w.Lexical? {
      SomeArrayAppend(ws, w, v);
    }
  }

  lemma RepetitionStored(b: Binding, ws: seq<Written>, w: Written)
    requires Stores(b, ws) && w.Lexical? && Repeated(Firsts(ws), w).Some?
    ensures Stores(AddSymbol(b, w.scope, w.declaration, w.repeatable).0, ws + [w])
  {
    hide Firsts, Repetitions, Repeated, FirstMatch, Reported, StoredAs;
    var firsts := Firsts(ws);
    var e := Repeated(firsts, w).value;
    ScanFindsRepeated(b.symbols, ws, w);
    FirstsAppend(ws, w);
    FirstsDistinct(ws);
    var after := AddSymbol(b, w.scope, w.declaration, w.repeatable).0;
    forall k | 0 <= k < |b.symbols| ensures StoredAs(after.symbols[k], firsts[k], ws + [w]) {
      assert firsts[k].Repeats(w) <==> k == e by {
        if k < e { assert !firsts[k].Repeats(firsts[e]); } else if e < k { assert !firsts[e].Repeats(firsts[k]); }
      }
      StillStored(b.symbols[k], after.symbols[k], firsts[k], ws, w);
    }
    ReportedAppend(b.diagnostics, DuplicateSymbol(w.declaration.range, b.symbols[e].declarationRange, false));
    SameRange(b.symbols[e], firsts[e], ws);
  }

  lemma SameRange(s: Symbol, w: Written, ws: seq<Written>)
    requires StoredAs(s, w, ws)
    ensures s.declarationRange == w.Range()
  {
  }

  lemma FirstStored(b: Binding, ws: seq<Written>, w: Written)
    requires Stores(b, ws) && w.Lexical? && Repeated(Firsts(ws), w).None?
    requires !w.declaration.kind.DebugFile? && !w.declaration.kind.DebugStringLabel?
    ensures Stores(AddSymbol(b, w.scope, w.declaration, w.repeatable).0, ws + [w])
  {
    hide Firsts, Repetitions, Repeated, FirstMatch, Reported, StoredAs;
    var firsts := Firsts(ws);
    ScanFindsRepeated(b.symbols, ws, w);
    FirstsAppend(ws, w);
    var after := AddSymbol(b, w.scope, w.declaration, w.repeatable).0;
    forall k | 0 <= k < |b.symbols| ensures StoredAs(after.symbols[k], firsts[k], ws + [w]) {
      StillStored(b.symbols[k], after.symbols[k], firsts[k], ws, w);
    }
    NewStored(after.symbols[|b.symbols|], w, ws);
    if |after.diagnostics| > |b.diagnostics| {
      ReportedAppend(b.diagnostics, after.diagnostics[|b.diagnostics|]);
    }
  }

  lemma NewStored(s: Symbol, w: Written, ws: seq<Written>)
    requires w.Lexical? && Repeated(Firsts(ws), w).None?
    requires s.scope == w.scope && s.kind == w.declaration.kind && !s.IsMetadata() && s.Declared() == w.declaration.declared
    requires s.declarationRange == w.declaration.range && s.linkage == w.declaration.linkage
    requires s.isArray == w.declaration.isArray
    ensures StoredAs(s, w, ws + [w])
  {
    hide Firsts, Repeated;
    SomeArrayAppend(ws, w, w);
    if SomeArray(ws, w) {
      var i :| 0 <= i < |ws| && w.Repeats(ws[i]) && ws[i].declaration.isArray;
      FirstsCover(ws, i);
      OneKey(Firsts(ws)[Repeated(Firsts(ws), ws[i]).value], ws[i], w);
    }
  }

  lemma OneKey(a: Written, b: Written, c: Written)
    requires a.Repeats(b) && c.Repeats(b)
    ensures a.Repeats(c)
  {
  }

  lemma LexicalStored(b: Binding, ws: seq<Written>, w: Written)
    requires Stores(b, ws) && w.Lexical?
    requires !w.declaration.kind.DebugFile? && !w.declaration.kind.DebugStringLabel?
    ensures var after := AddSymbol(b, w.scope, w.declaration, w.repeatable).0; Stores(after, ws + [w]) && after.scopes == b.scopes
  {
    hide Stores;
    if Repeated(Firsts(ws), w).Some? {
      RepetitionStored(b, ws, w);
    } else {
      FirstStored(b, ws, w);
    }
  }

  /** Metadata is scanned for by kind and name. */
  lemma {:induction false} MetadataFindsRepeated(symbols: seq<Symbol>, firsts: seq<Written>, ws: seq<Written>, w: Written)
    requires |symbols| == |firsts| && forall k :: 0 <= k < |symbols| ==> StoredAs(symbols[k], firsts[k], ws)
    requires w.Metadata? && (w.kind.DebugFile? || w.kind.DebugStringLabel?)
    ensures FindMetadata(symbols, w.kind, w.name) == Repeated(firsts, w)
    decreases |symbols|
  {
    hide SomeArray;
    if symbols != [] {
      var n := |symbols| - 1;
      MetadataFindsRepeated(symbols[..n], firsts[..n], ws, w);
    }
  }

  lemma MetadataStored(b: Binding, ws: seq<Written>, w: Written)
    requires Stores(b, ws) && w.Metadata? && (w.kind.DebugFile? || w.kind.DebugStringLabel?)
    ensures var after := AddMetadata(b, w.kind, w.name, w.range, w.repeatable);
      Stores(after, ws + [w]) && after.scopes == b.scopes
  {
    hide Firsts, Repetitions, Repeated, FindMetadata, Reported, StoredAs;
    var firsts := Firsts(ws);
    MetadataFindsRepeated(b.symbols, firsts, ws, w);
    FirstsAppend(ws, w);
    var after := AddMetadata(b, w.kind, w.name, w.range, w.repeatable);
    forall k | 0 <= k < |b.symbols| ensures StoredAs(after.symbols[k], firsts[k], ws + [w]) {
      StillStored(b.symbols[k], after.symbols[k], firsts[k], ws, w);
    }
    var found := Repeated(firsts, w);
    if found.Some? {
      ReportedAppend(b.diagnostics, DuplicateSymbol(w.range, b.symbols[found.value].declarationRange, false));
      SameRange(b.symbols[found.value], firsts[found.value], ws);
    } else {
      NewMetadata(after.symbols[|b.symbols|], w, ws + [w]);
    }
  }

  lemma NewMetadata(s: Symbol, w: Written, ws: seq<Written>)
    requires w.Metadata? && (w.kind.DebugFile? || w.kind.DebugStringLabel?)
    requires s.scope == 0 && s.kind == w.kind && s.name == w.name && s.declarationRange == w.range
    ensures StoredAs(s, w, ws)
  {
  }

  lemma Appended(ws: seq<Written>, a: seq<Written>, w: Written)
    ensures ws + (a + [w]) == (ws + a) + [w] && ws + [] == ws
  {
  }

  lemma VariableStored(b: Binding, ws: seq<Written>, scope: nat, declaration: VariableDeclaration, d: Declarator)
    requires Stores(b, ws)
    ensures var after := CollectDeclarator(b, scope, declaration, d);
      Stores(after, ws + [WrittenVariable(scope, declaration, d)]) && after.scopes == b.scopes
  {
    hide Stores;
    var w := WrittenVariable(scope, declaration, d);
    var counted := ParameterizedCount(b, d.count).0;
    CountStores(b, ws, d.count);
    LexicalStored(counted, ws, w);
    var (added, symbol) := AddSymbol(counted, scope, w.declaration, w.repeatable);
    RecordStores(added, ws + [w], symbol, d.name.range, Some(d.range));
  }

  /** The count that is stored, and that it is diagnosed exactly when it spells no count. */
  lemma CountIsWritten(b: Binding, count: Option<Identifier>)
    ensures var (counted, n) := ParameterizedCount(b, count);
      && n == WrittenCount(count)
      && counted == if count.Some? && !exists v: nat :: IsCount(count.value.text, v)
                    then b.(diagnostics := b.diagnostics + [InvalidParameterizedCount(count.value.range)]) else b
  {
    hide Denotes, IntegerMagnitude.Magnitude;
    if count.Some? {
      var text := count.value.text;
      var magnitude := IntegerMagnitude.Magnitude(text);
      if magnitude.Some? {
        MagnitudeIsSpelled(text, magnitude.value);
        if 0 < magnitude.value < 0x1_0000_0000 {
          OneCount(count, magnitude.value);
        }
      }
      if v: nat :| IsCount(text, v) {
        MagnitudeIsSpelled(text, v);
        OneCount(count, v);
      }
    }
  }

  lemma OneCount(count: Option<Identifier>, v: nat)
    requires count.Some? && IsCount(count.value.text, v)
    ensures WrittenCount(count) == Some(v)
  {
    hide Denotes;
    var w := WrittenCount(count).value;
    assert IsCount(count.value.text, w);
    DenotesOne(count.value.text, v, w);
  }

  lemma CountStores(b: Binding, ws: seq<Written>, count: Option<Identifier>)
    requires Stores(b, ws)
    ensures var (counted, n) := ParameterizedCount(b, count);
      Stores(counted, ws) && n == WrittenCount(count) && counted.scopes == b.scopes
  {
    hide Firsts, Repetitions, Reported, StoredAs, Denotes, IntegerMagnitude.Magnitude;
    CountIsWritten(b, count);
    if count.Some? {
      ReportedAppend(b.diagnostics, InvalidParameterizedCount(count.value.range));
    }
  }

  lemma RecordStores(b: Binding, ws: seq<Written>, symbol: nat, range: SourceRange, variableRange: Option<SourceRange>)
    requires Stores(b, ws)
    ensures var after := RecordOccurrence(b, symbol, range, variableRange); Stores(after, ws) && after.scopes == b.scopes
  {
    hide Accounted;
  }

  lemma {:induction false} VariablesStored(b: Binding, ws: seq<Written>, scope: nat, declaration: VariableDeclaration,
                                           ds: seq<Declarator>)
    requires Stores(b, ws)
    ensures var after := CollectDeclarators(b, scope, declaration, ds);
      Stores(after, ws + WrittenVariables(scope, declaration, ds)) && after.scopes == b.scopes
  {
    hide Stores, CollectDeclarator, WrittenVariable;
    if ds == [] {
      assert ws + [] == ws;
    } else {
      var init, d := ds[..|ds| - 1], ds[|ds| - 1];
      VariablesStored(b, ws, scope, declaration, init);
      VariableStored(CollectDeclarators(b, scope, declaration, init), ws + WrittenVariables(scope, declaration, init), scope,
        declaration, d);
      Appended(ws, WrittenVariables(scope, declaration, init), WrittenVariable(scope, declaration, d));
    }
  }

  lemma {:induction false} ParametersStored(b: Binding, ws: seq<Written>, scope: nat, kind: SymbolKind, ps: seq<Parameter>)
    requires Stores(b, ws) && !kind.DebugFile? && !kind.DebugStringLabel?
    ensures var after := CollectParameters(b, scope, kind, ps);
      Stores(after, ws + WrittenParameters(scope, kind, ps)) && after.scopes == b.scopes
  {
    hide Stores, AddSymbol;
    if ps == [] {
      assert ws + [] == ws;
    } else {
      var init, p := ps[..|ps| - 1], ps[|ps| - 1];
      var w := Lexical(scope, Named(kind, p.name).(isArray := p.dimensions != []), false);
      ParametersStored(b, ws, scope, kind, init);
      LexicalStored(CollectParameters(b, scope, kind, init), ws + WrittenParameters(scope, kind, init), w);
      Appended(ws, WrittenParameters(scope, kind, init), w);
    }
  }

  lemma {:induction false} BodyStored(b: Binding, ws: seq<Written>, body: seq<BodyItem>, functionScope: nat, scope: nat)
    requires Stores(b, ws)
    ensures var after := CollectBody(b, body, functionScope, scope);
      && Stores(after, ws + WrittenBody(body, functionScope, scope, |b.scopes|))
      && |after.scopes| == |b.scopes| + BlockCount(body)
    decreases body
  {
    hide Stores, CollectItem, WrittenItem, ItemBlocks;
    if body == [] {
      assert ws + [] == ws;
    } else {
      var init, last := body[..|body| - 1], body[|body| - 1];
      var before, written := CollectBody(b, init, functionScope, scope), WrittenBody(init, functionScope, scope, |b.scopes|);
      BodyStored(b, ws, init, functionScope, scope);
      ItemStored(before, ws + written, last, functionScope, scope);
      Regrouped(ws, written, WrittenItem(last, functionScope, scope, |before.scopes|));
    }
  }

  lemma Regrouped(a: seq<Written>, b: seq<Written>, c: seq<Written>)
    ensures (a + b) + c == a + (b + c)
  {
  }

  lemma {:induction false} ItemStored(b: Binding, ws: seq<Written>, item: BodyItem, functionScope: nat, scope: nat)
    requires Stores(b, ws)
    ensures var after := CollectItem(b, item, functionScope, scope);
      && Stores(after, ws + WrittenItem(item, functionScope, scope, |b.scopes|))
      && |after.scopes| == |b.scopes| + ItemBlocks(item)
    decreases item
  {
    hide Stores, AddSymbol, RecordOccurrence, CollectDeclarators, CollectBody, WrittenBody, WrittenVariables, BlockCount;
    match item
    case VariablesItem(declaration) => VariablesStored(b, ws, scope, declaration, declaration.declarators);
    case LabelItem(name) => LexicalStored(b, ws, WrittenName(functionScope, Label, name));
    case CallPrototypeItem(name) => LexicalStored(b, ws, WrittenName(functionScope, CallPrototype, name));
    case CallTargetsItem(name) => LexicalStored(b, ws, WrittenName(functionScope, CallTargetSet, name));
    case BranchTargetsItem(name) =>
      var w := WrittenName(functionScope, BranchTargetSet, name);
      LexicalStored(b, ws, w);
      var (added, symbol) := AddOrdinary(b, functionScope, BranchTargetSet, name);
      RecordStores(added, ws + [w], symbol, name.range, None);
    case InstructionItem(_, _) => assert ws + [] == ws;
    case BlockItem(range, body) =>
      ScopeStores(b, ws, AddBlockScope(b, scope, range));
      BodyStored(AddBlockScope(b, scope, range), ws, body, functionScope, |b.scopes|);
  }

  lemma ScopeStores(b: Binding, ws: seq<Written>, after: Binding)
    requires Stores(b, ws) && after.symbols == b.symbols && after.diagnostics == b.diagnostics
    ensures Stores(after, ws)
  {
  }

  lemma OpeningStored(b: Binding, ws: seq<Written>, f: FunctionDeclaration)
    requires Stores(b, ws)
    ensures var w := Lexical(0, Named(SymbolKind.Function, f.name).(linkage := f.linkage), true);
      Stores(OpenedFunction(b, f), ws + [w]) && |OpenedFunction(b, f).scopes| == |b.scopes| + 1
  {
    hide Stores, RecordOccurrence, AddSymbol, AddFunctionScope;
    var w := Lexical(0, Named(SymbolKind.Function, f.name).(linkage := f.linkage), true);
    LexicalStored(b, ws, w);
    var (added, symbol) := AddSymbol(b, 0, w.declaration, true);
    FunctionScopeStores(added, ws + [w], symbol, f.range, !f.isPrototype);
    RecordStores(AddFunctionScope(added, symbol, f.range, !f.isPrototype), ws + [w], symbol, f.name.range, None);
  }

  lemma FunctionScopeStores(b: Binding, ws: seq<Written>, owner: nat, range: SourceRange, prefer: bool)
    requires Stores(b, ws)
    ensures var after := AddFunctionScope(b, owner, range, prefer); Stores(after, ws) && |after.scopes| == |b.scopes| + 1
  {
    hide Firsts, Repetitions, Reported, SomeArray;
    var after := AddFunctionScope(b, owner, range, prefer);
    forall k | 0 <= k < |b.symbols| ensures StoredAs(after.symbols[k], Firsts(ws)[k], ws) {
      assert StoredAs(b.symbols[k], Firsts(ws)[k], ws);
    }
  }

  lemma FunctionStored(b: Binding, ws: seq<Written>, f: FunctionDeclaration)
    requires Stores(b, ws)
    ensures Stores(CollectFunction(b, f), ws + WrittenFunction(f, |b.scopes|))
    ensures |CollectFunction(b, f).scopes| == |b.scopes| + 1 + BlockCount(f.body)
  {
    hide Stores, OpenedFunction, CollectParameters, CollectBody, WrittenParameters, WrittenBody, BlockCount;
    var scope, name := |b.scopes|, [Lexical(0, Named(SymbolKind.Function, f.name).(linkage := f.linkage), true)];
    var outputs, inputs := WrittenParameters(scope, ReturnParameter, f.returnParameters),
      WrittenParameters(scope, InputParameter, f.parameters);
    OpeningStored(b, ws, f);
    ParametersStored(OpenedFunction(b, f), ws + name, scope, ReturnParameter, f.returnParameters);
    ParametersStored(CollectParameters(OpenedFunction(b, f), scope, ReturnParameter, f.returnParameters),
      ws + name + outputs, scope, InputParameter, f.parameters);
    BodyStored(CollectFunctionHeader(b, f), ws + name + outputs + inputs, f.body, scope, scope);
    Regrouped(ws, name, outputs);
    Regrouped(ws, name + outputs, inputs);
    Regrouped(ws, name + outputs + inputs, WrittenBody(f.body, scope, scope, scope + 1));
  }

  lemma {:induction false} LabelsStored(b: Binding, ws: seq<Written>, labels: seq<Identifier>)
    requires Stores(b, ws)
    ensures Stores(CollectLabels(b, labels), ws + WrittenLabels(labels)) && CollectLabels(b, labels).scopes == b.scopes
  {
    hide Stores, AddMetadata;
    if labels == [] {
      assert ws + [] == ws;
    } else {
      var init, last := labels[..|labels| - 1], labels[|labels| - 1];
      var w := Metadata(DebugStringLabel, last.text, last.range, false);
      LabelsStored(b, ws, init);
      MetadataStored(CollectLabels(b, init), ws + WrittenLabels(init), w);
      Appended(ws, WrittenLabels(init), w);
    }
  }

  lemma ModuleItemStored(b: Binding, ws: seq<Written>, item: ModuleItem)
    requires Stores(b, ws)
    ensures Stores(CollectModuleItem(b, item), ws + WrittenModuleItem(item, |b.scopes|))
    ensures |CollectModuleItem(b, item).scopes|
      == |b.scopes| + (match item case FunctionItem(f) => 1 + BlockCount(f.body) case _ => 0)
  {
    hide Stores, AddMetadata, CollectFunction, CollectDeclarators, CollectLabels, WrittenFunction, WrittenVariables,
      WrittenLabels, BlockCount;
    match item
    case ModuleVariables(declaration) => VariablesStored(b, ws, 0, declaration, declaration.declarators);
    case FileItem(fileIndex) => FileStored(b, ws, fileIndex);
    case DebugStringItem(section, labels) =>
      var w := Metadata(DebugStringLabel, section.text, section.range, true);
      MetadataStored(b, ws, w);
      LabelsStored(AddMetadata(b, DebugStringLabel, section.text, section.range, true), ws + [w], labels);
      Regrouped(ws, [w], WrittenLabels(labels));
    case FunctionItem(f) => FunctionStored(b, ws, f);
  }

  lemma FileStored(b: Binding, ws: seq<Written>, fileIndex: Identifier)
    requires Stores(b, ws)
    ensures Stores(CollectFile(b, fileIndex), ws + WrittenModuleItem(FileItem(fileIndex), |b.scopes|))
    ensures CollectFile(b, fileIndex).scopes == b.scopes
  {
    hide AddMetadata, Firsts, Repetitions, Reported, StoredAs;
    var magnitude := IntegerMagnitude.Magnitude(fileIndex.text);
    if magnitude.None? {
      ReportedAppend(b.diagnostics, InvalidDebugFileId(fileIndex.range));
      assert ws + [] == ws;
    } else {
      MetadataStored(b, ws, Metadata(DebugFile, Decimal(magnitude.value), fileIndex.range, false));
    }
  }

  lemma {:induction false} ModuleStored(b: Binding, items: seq<ModuleItem>)
    requires Stores(b, []) && |b.scopes| == 1
    ensures Stores(CollectModule(b, items), WrittenModule(items)) && |CollectModule(b, items).scopes| == ScopeCount(items)
  {
    hide Stores, CollectModuleItem, WrittenModuleItem, BlockCount;
    if items != [] {
      var init, last := items[..|items| - 1], items[|items| - 1];
      ModuleStored(b, init);
      ModuleItemStored(CollectModule(b, init), WrittenModule(init), last);
    }
  }

  // ---- what the account means -------------------------------------------------------------------

  /** No earlier declaration has the key of the `i`th. */
  ghost predicate IsFirst(ws: seq<Written>, i: nat)
    requires i < |ws|
  {
    forall k :: 0 <= k < i ==> !ws[k].Repeats(ws[i])
  }

  ghost predicate FirstAt(ws: seq<Written>, i: nat, w: Written) {
    i < |ws| && IsFirst(ws, i) && ws[i] == w
  }

  ghost predicate SomeFirst(ws: seq<Written>, w: Written) {
    exists i: nat :: FirstAt(ws, i, w)
  }

  lemma {:induction false} FirstsAre(ws: seq<Written>)
    ensures forall k :: 0 <= k < |Firsts(ws)| ==> SomeFirst(ws, Firsts(ws)[k])
    decreases |ws|, 1
  {
    hide Repeated;
    if ws != [] {
      var init, n := ws[..|ws| - 1], |ws| - 1;
      FirstsAre(init);
      forall k | 0 <= k < |Firsts(ws)| ensures SomeFirst(ws, Firsts(ws)[k]) {
        if k < |Firsts(init)| {
          assert SomeFirst(init, Firsts(init)[k]);
          var i: nat :| FirstAt(init, i, Firsts(init)[k]);
          assert FirstAt(ws, i, Firsts(ws)[k]);
        } else {
          LastIsFirst(ws);
          assert FirstAt(ws, n, Firsts(ws)[k]);
        }
      }
    }
  }

  /** The last declaration is a first one exactly when it repeats none of the firsts before it. */
  lemma LastIsFirst(ws: seq<Written>)
    requires ws != []
    ensures IsFirst(ws, |ws| - 1) <==> Repeated(Firsts(ws[..|ws| - 1]), ws[|ws| - 1]).None?
    decreases |ws|, 0
  {
    hide Repeated, Firsts;
    var init, w := ws[..|ws| - 1], ws[|ws| - 1];
    var found := Repeated(Firsts(init), w);
    if found.Some? {
      FirstsAre(init);
      assert SomeFirst(init, Firsts(init)[found.value]);
      var i: nat :| FirstAt(init, i, Firsts(init)[found.value]);
      assert ws[i].Repeats(w);
    } else {
      forall k | 0 <= k < |init| ensures !init[k].Repeats(w) {
        FirstsCover(init, k);
        var v := init[k];
        var first := Firsts(init)[Repeated(Firsts(init), v).value];
        if v.Repeats(w) {
          OneKey(first, v, w);
        }
      }
    }
  }

  /** The `j`th declaration repeats, without being allowed to, what the `i`th declared first. */
  ghost predicate Forbidden(ws: seq<Written>, i: nat, j: nat)
    requires i < |ws| && j < |ws|
  {
    i < j && IsFirst(ws, i) && ws[i].Repeats(ws[j]) && !ws[j].repeatable
  }

  ghost predicate ReportOf(ws: seq<Written>, i: nat, j: nat, d: BindDiagnostic)
    requires i < |ws| && j < |ws|
  {
    Forbidden(ws, i, j) && d == DuplicateSymbol(ws[j].Range(), ws[i].Range(), false)
  }

  lemma {:induction false} RepetitionsAre(ws: seq<Written>, d: BindDiagnostic)
    ensures d in Repetitions(ws) <==> exists i, j :: 0 <= i < |ws| && 0 <= j < |ws| && ReportOf(ws, i, j, d)
  {
    hide Repeated, Firsts, IsFirst;
    if ws != [] {
      var init, n := ws[..|ws| - 1], |ws| - 1;
      RepetitionsAre(init, d);
      forall i, j | 0 <= i < n && 0 <= j < n ensures ReportOf(ws, i, j, d) <==> ReportOf(init, i, j, d) {
        FirstInPrefix(ws, i);
      }
      LastRepetition(ws, n, d);
      if i, j :| 0 <= i < |init| && 0 <= j < |init| && ReportOf(init, i, j, d) {
        assert ReportOf(ws, i, j, d);
      }
    }
  }

  lemma FirstInPrefix(ws: seq<Written>, i: nat)
    requires i < |ws| - 1
    ensures IsFirst(ws, i) <==> IsFirst(ws[..|ws| - 1], i)
  {
  }

  lemma LastRepetition(ws: seq<Written>, n: nat, d: BindDiagnostic)
    requires n + 1 == |ws|
    ensures var before, w := Firsts(ws[..n]), ws[n];
      (&& Repeated(before, w).Some? && !w.repeatable
       && d == DuplicateSymbol(w.Range(), before[Repeated(before, w).value].Range(), false))
      <==> exists i :: 0 <= i < |ws| && ReportOf(ws, i, n, d)
  {
    hide Repeated, Firsts, IsFirst;
    var init, w := ws[..n], ws[n];
    var found := Repeated(Firsts(init), w);
    if found.Some? {
      FirstsAre(init);
      assert SomeFirst(init, Firsts(init)[found.value]);
      var i: nat :| FirstAt(init, i, Firsts(init)[found.value]);
      FirstInPrefix(ws, i);
      forall k | 0 <= k < n && IsFirst(ws, k) && ws[k].Repeats(w) ensures k == i {
        OneFirst(ws, i, k);
      }
      if !w.repeatable && d == DuplicateSymbol(w.Range(), init[i].Range(), false) {
        assert ReportOf(ws, i, n, d);
      }
    } else {
      LastIsFirst(ws);
      NothingRepeated(ws);
    }
  }

  lemma OneFirst(ws: seq<Written>, i: nat, k: nat)
    requires i < |ws| - 1 && k < |ws| - 1 && IsFirst(ws, i) && IsFirst(ws, k)
    requires ws[i].Repeats(ws[|ws| - 1]) && ws[k].Repeats(ws[|ws| - 1])
    ensures k == i
  {
    assert ws[i].Repeats(ws[k]) && ws[k].Repeats(ws[i]);
  }

  lemma NothingRepeated(ws: seq<Written>)
    requires ws != [] && IsFirst(ws, |ws| - 1)
    ensures forall i :: 0 <= i < |ws| - 1 ==> !ws[i].Repeats(ws[|ws| - 1])
  {
  }

  lemma {:induction false} ReportedAre(diagnostics: seq<BindDiagnostic>, d: BindDiagnostic)
    ensures d in Reported(diagnostics) <==> d in diagnostics && d.DuplicateSymbol? && !d.overlapping
  {
    if diagnostics != [] {
      ReportedAre(diagnostics[..|diagnostics| - 1], d);
    }
  }

  /** Unresolved references, which binding reports, are no repetitions. */
  lemma {:induction false} ReferencesUnreported(before: seq<BindDiagnostic>, after: seq<BindDiagnostic>)
    requires before <= after && forall k :: |before| <= k < |after| ==> after[k].UnresolvedReference?
    ensures Reported(after) == Reported(before)
    decreases |after|
  {
    if |after| > |before| {
      ReferencesUnreported(before, after[..|after| - 1]);
    } else {
      assert after == before;
    }
  }

  /** A bound module accounts for all that was written: its symbols in order, and the reports of repetitions in order. */
  lemma ModuleAccounted(items: seq<ModuleItem>, specials: set<string>)
    requires NamedModule(items) && BindSymbols(items, specials).Some?
    ensures var b := BindSymbols(items, specials).value; Accounted(b.symbols, b.diagnostics, WrittenModule(items))
  {
    hide Sound, NamedModule, BindSymbols, AllResolvedLinearly, SpellingsDisjoint, WrittenModule, Reported;
    var initial := IndexEvents(InitialBinding(), ModuleEvents(items));
    IndexEventsSound(ModuleEvents(items));
    assert Stores(initial, []) by { assert Reported([]) == [] by { NothingReported(); } }
    ModuleStored(initial, items);
    BoundModuleIsSound(items, specials);
    ReferencesUnreported(Collected(items).diagnostics, BindSymbols(items, specials).value.diagnostics);
  }

  lemma NothingReported()
    ensures Reported([]) == []
  {
  }

  /** The table holds a symbol of a scope, name and form exactly when the module declares that name so in that scope. */
  lemma SymbolsAreDeclarations(items: seq<ModuleItem>, specials: set<string>, scope: nat, d: DeclaredName)
    requires NamedModule(items) && BindSymbols(items, specials).Some?
    ensures FirstMatch(BindSymbols(items, specials).value.symbols, Exactly(scope, d)).Some?
      <==> exists w :: w in WrittenModule(items) && w.Declares(scope, d)
  {
    hide NamedModule, BindSymbols, WrittenModule, FirstMatch, Repeated, Reported, Repetitions, Firsts;
    var symbols, ws := BindSymbols(items, specials).value.symbols, WrittenModule(items);
    ModuleAccounted(items, specials);
    var q := Lexical(scope, Declaration(Variable, d, SourceRange(0, 0, 0, 0), NoLinkage, false), false);
    ScanFindsRepeated(symbols, ws, q);
    if Repeated(Firsts(ws), q).Some? {
      FirstsAre(ws);
      var k := Repeated(Firsts(ws), q).value;
      assert SomeFirst(ws, Firsts(ws)[k]);
      var i: nat :| FirstAt(ws, i, Firsts(ws)[k]);
      assert ws[i] in ws && ws[i].Declares(scope, d);
    }
    if w :| w in ws && w.Declares(scope, d) {
      var i :| 0 <= i < |ws| && ws[i] == w;
      FirstsCover(ws, i);
      var k := Repeated(Firsts(ws), w).value;
      assert Firsts(ws)[k].Repeats(q);
    }
  }

  /** Every stored symbol is as its first declaration made it, an array if any of its declarations is one. */
  lemma SymbolIsItsFirst(items: seq<ModuleItem>, specials: set<string>, s: nat) returns (i: nat)
    requires NamedModule(items) && BindSymbols(items, specials).Some?
    requires s < |BindSymbols(items, specials).value.symbols|
    ensures i < |WrittenModule(items)| && IsFirst(WrittenModule(items), i)
    ensures StoredAs(BindSymbols(items, specials).value.symbols[s], WrittenModule(items)[i], WrittenModule(items))
  {
    hide NamedModule, BindSymbols, WrittenModule, Firsts, StoredAs;
    var ws := WrittenModule(items);
    ModuleAccounted(items, specials);
    FirstsAre(ws);
    assert SomeFirst(ws, Firsts(ws)[s]);
    i :| FirstAt(ws, i, Firsts(ws)[s]);
  }

  /** A repetition is reported, beside what it repeats, exactly when it is not allowed. */
  lemma RepetitionReportedIff(items: seq<ModuleItem>, specials: set<string>, d: BindDiagnostic)
    requires NamedModule(items) && BindSymbols(items, specials).Some? && d.DuplicateSymbol? && !d.overlapping
    ensures d in BindSymbols(items, specials).value.diagnostics
      <==> exists i, j :: 0 <= i < |WrittenModule(items)| && 0 <= j < |WrittenModule(items)|
                          && ReportOf(WrittenModule(items), i, j, d)
  {
    hide NamedModule, BindSymbols, WrittenModule, Firsts, StoredAs, ReportOf;
    ModuleAccounted(items, specials);
    ReportedAre(BindSymbols(items, specials).value.diagnostics, d);
    RepetitionsAre(WrittenModule(items), d);
  }

  /** A group declared with a count stands for just so many members: `base` and a number is one exactly below the count. */
  lemma GroupMembers(items: seq<ModuleItem>, specials: set<string>, s: nat, scope: nat, declaration: VariableDeclaration,
                     d: Declarator, v: nat, member: nat)
    requires NamedModule(items) && BindSymbols(items, specials).Some? && s < |BindSymbols(items, specials).value.symbols|
    requires StoredAs(BindSymbols(items, specials).value.symbols[s], WrittenVariable(scope, declaration, d), WrittenModule(items))
    requires d.count.Some? && IsCount(d.count.value.text, v)
    ensures Spells(BindSymbols(items, specials).value.symbols[s].Declared(), d.name.text + Decimal(member)) <==> member < v
  {
    hide NamedModule, BindSymbols, WrittenModule, Denotes, SomeArray;
    var declared := BindSymbols(items, specials).value.symbols[s].Declared();
    OneCount(d.count, v);
    assert declared == DeclaredName(d.name.text, Some(v));
    MembersBelow(declared, member);
  }

  lemma MembersBelow(d: DeclaredName, member: nat)
    requires d.count.Some?
    ensures Spells(d, d.name + Decimal(member)) <==> member < d.count.value
  {
    if i: nat :| i < d.count.value && d.name + Decimal(member) == d.name + Decimal(i) {
      assert (d.name + Decimal(member))[|d.name|..] == Decimal(member) && (d.name + Decimal(i))[|d.name|..] == Decimal(i);
      DecimalCanonical(member);
      DecimalCanonical(i);
    }
  }
}
