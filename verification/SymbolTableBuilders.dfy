/** The builder: imperative passes over a module whose result is the simple specification's. */
module SymbolTableBuilders {
  import opened Common
  import opened MemberNames
  import opened Symbols
  import opened ScopeIndex
  import opened LexicalBinding
  import opened BindingPass
  import opened CollectingPass
  import opened SymbolTables
  import opened BoundModule

  class SymbolTableBuilder {
    const table: SymbolTable
    const specialRegisters: set<string>
    var diagnostics: seq<BindDiagnostic>
    var functions: seq<FunctionContext>
    var ambiguousSourceOrders: set<SourceRange>
    var nextSourceOrder: nat

    /** What has been built so far, as the specification sees it. */
    ghost function View(): Binding
      reads this, table
    {
      Binding(table.scopes, table.symbols, table.declarationOccurrences, table.references, table.sourceOrders,
              ambiguousSourceOrders, nextSourceOrder, diagnostics)
    }

    ghost predicate Valid()
      reads this, table, table.Repr
      ensures Valid() ==> table in table.Repr && |table.scopes| > 0 && ScopesNest(table.scopes)
    {
      this !in table.Repr && table.Valid() && Sound(View())
    }

    constructor (specialRegisters: set<string>)
      ensures Valid() && fresh(table) && fresh(table.Repr)
      ensures View() == InitialBinding() && functions == [] && this.specialRegisters == specialRegisters
    {
      this.specialRegisters := specialRegisters;
      diagnostics, functions, ambiguousSourceOrders, nextSourceOrder := [], [], {}, 0;
      table := new SymbolTable();
      new;
      InitialWellFormed();
    }

    // ---- lexical order --------------------------------------------------------------------------

    /** One event, as `IndexSourceRange` numbers it. */
    method IndexRange(range: SourceRange)
      requires Valid() && View().occurrences == []
      modifies this`ambiguousSourceOrders, this`nextSourceOrder, table`sourceOrders
      ensures Valid() && View() == IndexSourceRange(old(View()), range)
    {
      hide ScopeNameIndex.Valid;
      if range in ambiguousSourceOrders {
        return;
      }
      var order := nextSourceOrder;
      nextSourceOrder := nextSourceOrder + 1;
      if range !in table.sourceOrders {
        table.sourceOrders := table.sourceOrders[range := order];
      } else {
        table.sourceOrders := table.sourceOrders - {range};
        ambiguousSourceOrders := ambiguousSourceOrders + {range};
      }
      SameDeclarationsKeep(old(View()), View());
    }

    /** Number an expression's symbols in order, whatever they stand for. */
    method IndexExpression(e: Expression)
      requires Valid() && View().occurrences == []
      modifies this`ambiguousSourceOrders, this`nextSourceOrder, table`sourceOrders
      ensures Valid() && View() == IndexEvents(old(View()), Ranges(Mentions(e, false)))
      decreases e
    {
      hide SymbolTable.Valid, Sound, IndexEvents, IndexSourceRange;
      ghost var start := View();
      MentionRanges(e);
      NoEvents(start);
      match e {
        case Literal(_) =>
        case Symbol(name) =>
          OneEvent(start, name.range);
          IndexRange(name.range);
        case Parenthesized(_, inner, _) => IndexExpression(inner);
        case Call(callee, _, argument, _) =>
          IndexExpression(callee);
          IndexExpression(argument);
          EventsAppend(start, Ranges(Mentions(callee, false)), Ranges(Mentions(argument, false)));
        case Cast(_, _, _, operand) => IndexExpression(operand);
        case UnaryOperation(_, operand) => IndexExpression(operand);
        case BinaryOperation(left, _, right) =>
          IndexExpression(left);
          IndexExpression(right);
          EventsAppend(start, Ranges(Mentions(left, false)), Ranges(Mentions(right, false)));
        case Conditional(condition, _, whenTrue, _, whenFalse) =>
          IndexExpression(condition);
          IndexExpression(whenTrue);
          IndexExpression(whenFalse);
          EventsAppend(start, Ranges(Mentions(condition, false)), Ranges(Mentions(whenTrue, false)));
          EventsAppend(start, Ranges(Mentions(condition, false)) + Ranges(Mentions(whenTrue, false)),
            Ranges(Mentions(whenFalse, false)));
      }
    }

    method IndexInitializer(i: InitializerTree)
      requires Valid() && View().occurrences == []
      modifies this`ambiguousSourceOrders, this`nextSourceOrder, table`sourceOrders
      ensures Valid() && View() == IndexEvents(old(View()), Ranges(InitializerMentions(i, false)))
      decreases i
    {
      hide SymbolTable.Valid, Sound, IndexEvents, IndexSourceRange, Mentions;
      NoEvents(View());
      RangesOfNone();
      match i {
        case Named(_, _, value) =>
          if !value.Symbol? {
            IndexExpression(value);
          }
        case Scalar(value) => IndexExpression(value);
        case Braced(_, elements, _) => IndexElements(elements);
      }
    }

    method IndexElements(es: InitializerGrammar.Elements<Identifier>)
      requires Valid() && View().occurrences == []
      modifies this`ambiguousSourceOrders, this`nextSourceOrder, table`sourceOrders
      ensures Valid() && View() == IndexEvents(old(View()), Ranges(ElementMentions(es, false)))
      decreases es
    {
      hide SymbolTable.Valid, Sound, IndexEvents, IndexSourceRange, InitializerMentions;
      NoEvents(View());
      RangesOfNone();
      match es {
        case NoMore =>
        case Final(last) => IndexInitializer(last);
        case Then(element, _, rest) =>
          IndexInitializer(element);
          IndexElements(rest);
          EventsAppend(old(View()), Ranges(InitializerMentions(element, false)), Ranges(ElementMentions(rest, false)));
          RangesAppend(InitializerMentions(element, false), ElementMentions(rest, false));
      }
    }

    method IndexDeclarators(declarators: seq<Declarator>)
      requires Valid() && View().occurrences == []
      modifies this`ambiguousSourceOrders, this`nextSourceOrder, table`sourceOrders
      ensures Valid() && View() == IndexEvents(old(View()), DeclaratorEvents(declarators))
    {
      hide SymbolTable.Valid, Sound, IndexEvents, IndexSourceRange, InitializerMentions, Ranges;
      NoEvents(View());
      RangesOfNone();
      for i := 0 to |declarators|
        invariant Valid() && View().occurrences == []
        invariant View() == IndexEvents(old(View()), DeclaratorEvents(declarators[..i]))
      {
        ghost var before := DeclaratorEvents(declarators[..i]);
        var d := declarators[i];
        ghost var mentioned := Ranges(OptionalMentions(d.initializer, false));
        IndexRange(d.name.range);
        EventsAppend(old(View()), before, [d.name.range]);
        OneEvent(IndexEvents(old(View()), before), d.name.range);
        NoEvents(View());
        if d.initializer.Some? {
          IndexInitializer(d.initializer.value);
        }
        EventsAppend(old(View()), before + [d.name.range], mentioned);
        assert before + [d.name.range] + mentioned == before + ([d.name.range] + mentioned);
        assert declarators[..i + 1][..i] == declarators[..i];
      }
      assert declarators[..|declarators|] == declarators;
    }

    method IndexOperands(operands: seq<Operand>)
      requires Valid() && View().occurrences == []
      modifies this`ambiguousSourceOrders, this`nextSourceOrder, table`sourceOrders
      ensures Valid() && View() == IndexEvents(old(View()), OperandEvents(operands))
    {
      hide SymbolTable.Valid, Sound, IndexEvents, IndexSourceRange;
      NoEvents(View());
      for i := 0 to |operands|
        invariant Valid() && View().occurrences == []
        invariant View() == IndexEvents(old(View()), OperandEvents(operands[..i]))
      {
        if operands[i].OrderedUse? {
          IndexRange(operands[i].range);
          EventsAppend(old(View()), OperandEvents(operands[..i]), [operands[i].range]);
          OneEvent(IndexEvents(old(View()), OperandEvents(operands[..i])), operands[i].range);
        } else {
          assert OperandEvents(operands[..i]) + [] == OperandEvents(operands[..i]);
        }
        assert operands[..i + 1][..i] == operands[..i];
      }
      assert operands[..|operands|] == operands;
    }

    /** The events of a body, those of its blocks where the blocks stand. */
    method IndexBodySourceOrder(body: seq<BodyItem>)
      requires Valid() && View().occurrences == []
      modifies this`ambiguousSourceOrders, this`nextSourceOrder, table`sourceOrders
      ensures Valid() && View() == IndexEvents(old(View()), BodyEvents(body))
      decreases body
    {
      hide SymbolTable.Valid, Sound, IndexEvents, IndexSourceRange;
      NoEvents(View());
      for i := 0 to |body|
        invariant Valid() && View().occurrences == []
        invariant View() == IndexEvents(old(View()), BodyEvents(body[..i]))
      {
        match body[i] {
          case VariablesItem(declaration) => IndexDeclarators(declaration.declarators);
          case BranchTargetsItem(name) =>
            OneEvent(View(), name.range);
            IndexRange(name.range);
          case InstructionItem(_, operands) => IndexOperands(operands);
          case BlockItem(_, inner) => IndexBodySourceOrder(inner);
          case _ => NoEvents(View());
        }
        EventsAppend(old(View()), BodyEvents(body[..i]), ItemEvents(body[i]));
        assert body[..i + 1][..i] == body[..i];
      }
      assert body[..|body|] == body;
    }

    /** All events of a module, numbered in the order they are written. */
    method IndexSourceOrder(items: seq<ModuleItem>)
      requires Valid() && View().occurrences == []
      modifies this`ambiguousSourceOrders, this`nextSourceOrder, table`sourceOrders
      ensures Valid() && View() == IndexEvents(old(View()), ModuleEvents(items))
    {
      hide SymbolTable.Valid, Sound, IndexEvents, IndexSourceRange;
      NoEvents(View());
      for i := 0 to |items|
        invariant Valid() && View().occurrences == []
        invariant View() == IndexEvents(old(View()), ModuleEvents(items[..i]))
      {
        ghost var before := ModuleEvents(items[..i]);
        assert items[..i + 1][..i] == items[..i];
        match items[i] {
          case ModuleVariables(declaration) =>
            IndexDeclarators(declaration.declarators);
            EventsAppend(old(View()), before, DeclaratorEvents(declaration.declarators));
          case FunctionItem(f) =>
            OneEvent(View(), f.name.range);
            IndexRange(f.name.range);
            EventsAppend(old(View()), before, [f.name.range]);
            IndexBodySourceOrder(f.body);
            EventsAppend(old(View()), before + [f.name.range], BodyEvents(f.body));
            assert before + [f.name.range] + BodyEvents(f.body) == before + ([f.name.range] + BodyEvents(f.body));
          case _ => assert before + [] == before;
        }
      }
      assert items[..|items|] == items;
    }

    // ---- declarations ---------------------------------------------------------------------------

    /** One more occurrence of the symbol, ordered if its range is. */
    method RecordDeclarationOccurrence(symbol: nat, range: SourceRange, variableRange: Option<SourceRange>)
      requires Valid() && symbol < |table.symbols| && !table.symbols[symbol].IsMetadata()
      modifies table`declarationOccurrences
      ensures Valid() && View() == RecordOccurrence(old(View()), symbol, range, variableRange)
    {
      hide ScopeNameIndex.Valid, WellFormed;
      RecordGrows(View(), symbol, range, variableRange);
      StoredOccurrences(View());
      var order := if range in table.sourceOrders then Some(table.sourceOrders[range]) else None;
      var occurrences := table.declarationOccurrences;
      table.declarationOccurrences :=
        occurrences[symbol := occurrences[symbol] + [Occurrence(symbol, range, order, variableRange)]];
    }

    method Report(d: BindDiagnostic)
      requires Valid() && !d.DuplicateSymbol?
      modifies this`diagnostics
      ensures Valid() && View() == old(View()).(diagnostics := old(diagnostics) + [d])
    {
      hide SymbolTable.Valid, WellFormed;
      DiagnoseGrows(View(), d);
      diagnostics := diagnostics + [d];
    }

    /** The indexes' answer is the first overlapping symbol of a scan, when nothing is exactly the candidate. */
    method OverlappingSymbol(scope: nat, d: DeclaredName) returns (r: Option<nat>)
      requires Valid() && scope < |table.scopes| && d.name != ""
      requires FirstMatch(table.symbols, Exactly(scope, d)).None?
      ensures r == FirstMatch(table.symbols, Overlapping(scope, d))
    {
      hide ScopeNameIndex.Valid;
      var index := table.scopeNameIndexes[scope];
      ExactIdsMatch(table.symbols, scope, d);
      FirstMatchIsEarliest(table.symbols, Exactly(scope, d));
      r := index.OverlappingSymbol(table.symbols, d);
      OverlappingIdsMatch(table.symbols, scope, d);
      FirstMatchIsEarliest(table.symbols, Overlapping(scope, d));
      EarliestUnique(r, FirstMatch(table.symbols, Overlapping(scope, d)),
        MatchingIds(table.symbols, Overlapping(scope, d)));
    }

    method ExactSymbol(scope: nat, d: DeclaredName) returns (r: Option<nat>)
      requires Valid() && scope < |table.scopes|
      ensures r == FirstMatch(table.symbols, Exactly(scope, d))
    {
      hide ScopeNameIndex.Valid;
      r := table.scopeNameIndexes[scope].ExactSymbol(d);
      ExactIdsMatch(table.symbols, scope, d);
      FirstMatchIsEarliest(table.symbols, Exactly(scope, d));
      EarliestUnique(r, FirstMatch(table.symbols, Exactly(scope, d)), MatchingIds(table.symbols, Exactly(scope, d)));
    }

    /** Add a declaration: rejoin an exact one, or store it, reporting a duplicate or an overlap. */
    method Add(scope: nat, d: Declaration, allowRedeclaration: bool) returns (id: nat)
      requires Valid() && scope < |table.scopes| && d.declared.name != ""
      requires !d.kind.DebugFile? && !d.kind.DebugStringLabel?
      modifies this`diagnostics, table.Repr
      ensures Valid() && fresh(table.Repr - old(table.Repr))
      ensures (View(), id) == AddSymbol(old(View()), scope, d, allowRedeclaration)
      ensures id < |table.symbols| && |table.scopes| == old(|table.scopes|) && !table.symbols[id].IsMetadata()
    {
      hide SymbolTable.Valid, Sound;
      AddSymbolGrows(View(), scope, d, allowRedeclaration);
      var previous := ExactSymbol(scope, d.declared);
      if previous.Some? {
        id := previous.value;
        var existing := table.symbols[id];
        table.UpdateSymbol(id, existing.(isArray := existing.isArray || d.isArray));
        if !allowRedeclaration {
          diagnostics := diagnostics + [DuplicateSymbol(d.range, existing.declarationRange, false)];
        }
        return;
      }
      var overlap := OverlappingSymbol(scope, d.declared);
      if overlap.Some? {
        var existing := table.symbols[overlap.value];
        if SymbolNameSetsOverlap(existing.Declared(), d.declared) {
          diagnostics := diagnostics + [DuplicateSymbol(d.range, existing.declarationRange, true)];
        }
      }
      id := |table.symbols|;
      table.PushSymbol(Symbol(id, scope, d.kind, d.declared.name, d.range, d.linkage, d.isArray, d.declared.count, None));
    }

    // ---- the collecting pass --------------------------------------------------------------------

    method CountOf(count: Option<Identifier>) returns (r: Option<u32>)
      requires Valid()
      modifies this`diagnostics
      ensures Valid() && (View(), r) == ParameterizedCount(old(View()), count)
    {
      if count.None? {
        return None;
      }
      var magnitude := IntegerMagnitude.ParseIntegerMagnitude(count.value.text);
      if magnitude.None? || magnitude.value == 0 || magnitude.value > 0xFFFF_FFFF {
        Report(InvalidParameterizedCount(count.value.range));
        return Some(0);
      }
      return Some(magnitude.value);
    }

    method CollectOneDeclarator(scope: nat, declaration: VariableDeclaration, d: Declarator)
      requires Valid() && scope < |table.scopes| && d.name.text != ""
      modifies this`diagnostics, table.Repr
      ensures Valid() && fresh(table.Repr - old(table.Repr)) && |table.scopes| == old(|table.scopes|)
      ensures View() == CollectDeclarator(old(View()), scope, declaration, d)
    {
      hide SymbolTable.Valid, Sound, AddSymbol;
      CollectDeclaratorGrows(View(), scope, declaration, d);
      var kind := if scope != 0 && declaration.inParameterSpace then CallParameter else Variable;
      var count := CountOf(d.count);
      var symbol := Add(scope,
        Declaration(kind, DeclaredName(d.name.text, count), d.name.range, declaration.linkage,
          d.dimensions != []), scope == 0);
      RecordDeclarationOccurrence(symbol, d.name.range, Some(d.range));
    }

    method CollectVariableDeclaration(scope: nat, declaration: VariableDeclaration)
      requires Valid() && scope < |table.scopes| && NamedDeclarators(declaration.declarators)
      modifies this`diagnostics, table.Repr
      ensures Valid() && fresh(table.Repr - old(table.Repr)) && |table.scopes| == old(|table.scopes|)
      ensures View() == CollectDeclarators(old(View()), scope, declaration, declaration.declarators)
    {
      hide SymbolTable.Valid, Sound, CollectDeclarator;
      var ds := declaration.declarators;
      for i := 0 to |ds|
        invariant Valid() && fresh(table.Repr - old(table.Repr)) && |table.scopes| == old(|table.scopes|)
        invariant View() == CollectDeclarators(old(View()), scope, declaration, ds[..i])
      {
        assert ds[..i + 1][..i] == ds[..i] && ds[i] in ds;
        CollectOneDeclarator(scope, declaration, ds[i]);
      }
      assert ds[..|ds|] == ds;
    }

    method AddName(scope: nat, kind: SymbolKind, name: Identifier) returns (id: nat)
      requires Valid() && scope < |table.scopes| && name.text != "" && !kind.DebugFile? && !kind.DebugStringLabel?
      modifies this`diagnostics, table.Repr
      ensures Valid() && fresh(table.Repr - old(table.Repr)) && |table.scopes| == old(|table.scopes|)
      ensures (View(), id) == AddOrdinary(old(View()), scope, kind, name)
      ensures id < |table.symbols| && !table.symbols[id].IsMetadata()
    {
      hide SymbolTable.Valid, Sound, AddSymbol;
      AddOrdinaryGrows(View(), scope, kind, name);
      id := Add(scope, Declaration(kind, DeclaredName(name.text, None), name.range, NoLinkage, false), false);
    }

    method PushBlockScope(parent: nat, range: SourceRange) returns (id: nat)
      requires Valid() && parent < |table.scopes|
      modifies table
      ensures Valid() && fresh(table.Repr - old(table.Repr))
      ensures View() == AddBlockScope(old(View()), parent, range) && id == old(|table.scopes|)
    {
      hide SymbolTable.Valid;
      id := |table.scopes|;
      var scope := Scope(id, BlockScope, Some(parent), None, Some(range));
      PushScopeGrows(View(), scope);
      table.PushScope(scope);
    }

    method CollectBodyItems(body: seq<BodyItem>, functionScope: nat, lexicalScope: nat)
      requires Valid() && NamedBody(body) && functionScope < |table.scopes| && lexicalScope < |table.scopes|
      modifies this`diagnostics, table.Repr
      ensures Valid() && fresh(table.Repr - old(table.Repr)) && |table.scopes| >= old(|table.scopes|)
      ensures View() == CollectBody(old(View()), body, functionScope, lexicalScope)
      decreases body
    {
      hide SymbolTable.Valid, Sound, AddSymbol, CollectDeclarators, RecordOccurrence;
      for i := 0 to |body|
        invariant Valid() && fresh(table.Repr - old(table.Repr)) && |table.scopes| >= old(|table.scopes|)
        invariant View() == CollectBody(old(View()), body[..i], functionScope, lexicalScope)
      {
        assert body[..i + 1][..i] == body[..i];
        assert NamedItem(body[i]);
        match body[i] {
          case VariablesItem(declaration) => CollectVariableDeclaration(lexicalScope, declaration);
          case LabelItem(name) => var _ := AddName(functionScope, Label, name);
          case CallPrototypeItem(name) => var _ := AddName(functionScope, CallPrototype, name);
          case CallTargetsItem(name) => var _ := AddName(functionScope, CallTargetSet, name);
          case BranchTargetsItem(name) =>
            var targets := AddName(functionScope, BranchTargetSet, name);
            RecordDeclarationOccurrence(targets, name.range, None);
          case BlockItem(range, inner) =>
            var block := PushBlockScope(lexicalScope, range);
            CollectBodyItems(inner, functionScope, block);
          case _ =>
        }
      }
      assert body[..|body|] == body;
    }

    method CollectFunctionParameters(scope: nat, kind: SymbolKind, ps: seq<Parameter>)
      requires Valid() && scope < |table.scopes| && !kind.DebugFile? && !kind.DebugStringLabel?
      requires forall p :: p in ps ==> p.name.text != ""
      modifies this`diagnostics, table.Repr
      ensures Valid() && fresh(table.Repr - old(table.Repr)) && |table.scopes| == old(|table.scopes|)
      ensures View() == CollectParameters(old(View()), scope, kind, ps)
    {
      hide SymbolTable.Valid, Sound, AddSymbol;
      for i := 0 to |ps|
        invariant Valid() && fresh(table.Repr - old(table.Repr)) && |table.scopes| == old(|table.scopes|)
        invariant View() == CollectParameters(old(View()), scope, kind, ps[..i])
      {
        assert ps[..i + 1][..i] == ps[..i] && ps[i] in ps;
        var d := Declaration(kind, DeclaredName(ps[i].name.text, None), ps[i].name.range, NoLinkage, ps[i].dimensions != []);
        AddSymbolGrows(View(), scope, d, false);
        var _ := Add(scope, d, false);
      }
      assert ps[..|ps|] == ps;
    }

    method PushFunctionScope(owner: nat, range: SourceRange, preferAsOwnedScope: bool) returns (id: nat)
      requires Valid() && owner < |table.symbols|
      modifies table
      ensures Valid() && fresh(table.Repr - old(table.Repr))
      ensures View() == AddFunctionScope(old(View()), owner, range, preferAsOwnedScope)
      ensures id == old(|table.scopes|) < |table.scopes| && |table.symbols| == old(|table.symbols|)
      ensures table.symbols[owner].kind == old(table.symbols[owner].kind)
    {
      hide SymbolTable.Valid;
      AddFunctionScopeGrows(View(), owner, range, preferAsOwnedScope);
      id := |table.scopes|;
      table.PushScope(Scope(id, FunctionScope, Some(0), Some(owner), Some(range)));
      var symbol := table.symbols[owner];
      if symbol.ownedScope.None? || preferAsOwnedScope {
        table.UpdateSymbol(owner, symbol.(ownedScope := Some(id)));
      }
    }

    /** Declare the function and open the scope of this occurrence of it. */
    method OpenFunction(f: FunctionDeclaration) returns (scope: nat)
      requires Valid() && NamedFunction(f)
      modifies this`diagnostics, this`functions, table.Repr
      ensures Valid() && fresh(table.Repr - old(table.Repr)) && scope == old(|table.scopes|) < |table.scopes|
      ensures View() == OpenedFunction(old(View()), f)
      ensures functions == old(functions) + [FunctionContext(f, scope)]
    {
      hide SymbolTable.Valid, AddSymbol, RecordOccurrence, AddFunctionScope;
      var d := Declaration(SymbolKind.Function, DeclaredName(f.name.text, None), f.name.range, f.linkage, false);
      var symbol := Add(0, d, true);
      scope := PushFunctionScope(symbol, f.range, !f.isPrototype);
      RecordDeclarationOccurrence(symbol, f.name.range, None);
      functions := functions + [FunctionContext(f, scope)];
    }

    method CollectFunctionDeclaration(f: FunctionDeclaration)
      requires Valid() && NamedFunction(f)
      modifies this`diagnostics, this`functions, table.Repr
      ensures Valid() && fresh(table.Repr - old(table.Repr))
      ensures View() == CollectFunction(old(View()), f)
      ensures functions == old(functions) + [FunctionContext(f, old(|table.scopes|))]
    {
      hide SymbolTable.Valid, Sound, OpenedFunction, CollectBody, CollectParameters;
      var scope := OpenFunction(f);
      CollectFunctionParameters(scope, ReturnParameter, f.returnParameters);
      CollectFunctionParameters(scope, InputParameter, f.parameters);
      CollectBodyItems(f.body, scope, scope);
    }

    method FindMetadataSymbol(kind: SymbolKind, name: string) returns (r: Option<nat>)
      ensures r == FindMetadata(table.symbols, kind, name)
    {
      for i := 0 to |table.symbols|
        invariant FindMetadata(table.symbols[..i], kind, name).None?
      {
        var s := table.symbols[i];
        assert table.symbols[..i + 1][..i] == table.symbols[..i];
        if s.scope == 0 && s.kind == kind && s.name == name {
          FindMetadataExtends(table.symbols, i + 1, kind, name);
          return Some(i);
        }
      }
      assert table.symbols[..|table.symbols|] == table.symbols;
      return None;
    }

    method AddMetadataSymbol(kind: SymbolKind, name: string, range: SourceRange, idempotent: bool)
      requires Valid() && (kind.DebugFile? || kind.DebugStringLabel?)
      modifies this`diagnostics, table.Repr
      ensures Valid() && fresh(table.Repr - old(table.Repr)) && |table.scopes| == old(|table.scopes|)
      ensures View() == AddMetadata(old(View()), kind, name, range, idempotent)
    {
      hide SymbolTable.Valid;
      AddMetadataGrows(View(), kind, name, range, idempotent);
      var previous := FindMetadataSymbol(kind, name);
      if previous.Some? {
        if !idempotent {
          diagnostics := diagnostics + [DuplicateSymbol(range, table.symbols[previous.value].declarationRange, false)];
        }
        return;
      }
      table.PushSymbol(Symbol(|table.symbols|, 0, kind, name, range, NoLinkage, false, None, None));
    }

    method CollectDebugStringLabels(labels: seq<Identifier>)
      requires Valid()
      modifies this`diagnostics, table.Repr
      ensures Valid() && fresh(table.Repr - old(table.Repr)) && |table.scopes| == old(|table.scopes|)
      ensures View() == CollectLabels(old(View()), labels)
    {
      hide SymbolTable.Valid, Sound, AddMetadata;
      for i := 0 to |labels|
        invariant Valid() && fresh(table.Repr - old(table.Repr)) && |table.scopes| == old(|table.scopes|)
        invariant View() == CollectLabels(old(View()), labels[..i])
      {
        assert labels[..i + 1][..i] == labels[..i];
        AddMetadataSymbol(DebugStringLabel, labels[i].text, labels[i].range, false);
      }
      assert labels[..|labels|] == labels;
    }

    method CollectDebugFile(fileIndex: Identifier)
      requires Valid()
      modifies this`diagnostics, table.Repr
      ensures Valid() && fresh(table.Repr - old(table.Repr)) && |table.scopes| == old(|table.scopes|)
      ensures View() == CollectFile(old(View()), fileIndex)
    {
      hide SymbolTable.Valid, Sound, AddMetadata;
      var magnitude := IntegerMagnitude.ParseIntegerMagnitude(fileIndex.text);
      if magnitude.None? {
        Report(InvalidDebugFileId(fileIndex.range));
        return;
      }
      AddMetadataSymbol(DebugFile, Decimal(magnitude.value), fileIndex.range, false);
    }

    method CollectItems(items: seq<ModuleItem>)
      requires Valid() && NamedModule(items) && functions == []
      modifies this`diagnostics, this`functions, table.Repr
      ensures Valid() && fresh(table.Repr - old(table.Repr))
      ensures View() == CollectModule(old(View()), items)
      ensures functions == FunctionContexts(old(View()), items)
    {
      hide SymbolTable.Valid, Sound, AddMetadata, CollectDeclarators, CollectFunction, CollectLabels, CollectFile;
      for i := 0 to |items|
        invariant Valid() && fresh(table.Repr - old(table.Repr))
        invariant View() == CollectModule(old(View()), items[..i])
        invariant functions == FunctionContexts(old(View()), items[..i])
      {
        assert items[..i + 1][..i] == items[..i];
        match items[i] {
          case ModuleVariables(declaration) => CollectVariableDeclaration(0, declaration);
          case FileItem(fileIndex) => CollectDebugFile(fileIndex);
          case DebugStringItem(section, labels) =>
            AddMetadataSymbol(DebugStringLabel, section.text, section.range, true);
            CollectDebugStringLabels(labels);
          case FunctionItem(f) => CollectFunctionDeclaration(f);
        }
      }
      assert items[..|items|] == items;
    }

    // ---- the binding pass -----------------------------------------------------------------------

    /** Classify and record one reference by an indexed lookup. */
    method Reference(scope: nat, kind: ReferenceKind, id: Identifier)
      requires Valid() && scope < |table.scopes|
      modifies this`diagnostics, table`references
      ensures Valid() && View() == AddReference(old(View()), specialRegisters, scope, kind, id)
    {
      hide ScopeNameIndex.Valid;
      var target: Option<SymbolLookup> := None;
      var classification := Unresolved;
      if id.text in specialRegisters {
        classification := SpecialRegister;
      } else {
        target := table.Lookup(scope, id.text);
        if target.Some? {
          LookupFindsSymbol(table.scopes, table.symbols, scope, id.text);
          classification := if table.symbols[target.value.symbol].linkage == External then ExternalSymbol else DeclaredSymbol;
        }
      }
      ReferencesKeep(View(), AddReference(View(), specialRegisters, scope, kind, id));
      table.references := table.references + [SymbolReference(scope, kind, id.text, id.range, classification, target)];
      if classification == Unresolved {
        diagnostics := diagnostics + [UnresolvedReference(id.range)];
      }
    }

    /** Reference an expression's symbols in order, leaving out an applied initializer operator. */
    method BindExpression(scope: nat, kind: ReferenceKind, e: Expression)
      requires Valid() && scope < |table.scopes|
      modifies this`diagnostics, table`references
      ensures Valid() && View() == AddReferences(old(View()), specialRegisters, scope, UsesOf(kind, Mentions(e, true)))
      decreases e
    {
      hide SymbolTable.Valid, Sound, AddReferences, AddReference, AppliesOperator;
      ghost var start := View();
      MentionUses(kind, e);
      NoReferences(start, specialRegisters, scope);
      match e {
        case Literal(_) =>
        case Symbol(name) =>
          OneReference(start, specialRegisters, scope, Use(kind, name));
          Reference(scope, kind, name);
        case Parenthesized(_, inner, _) => BindExpression(scope, kind, inner);
        case Call(callee, _, argument, _) =>
          if AppliesOperator(e) {
            BindExpression(scope, kind, argument);
          } else {
            BindExpression(scope, kind, callee);
            BindExpression(scope, kind, argument);
            ReferencesAppend(start, specialRegisters, scope, UsesOf(kind, Mentions(callee, true)),
              UsesOf(kind, Mentions(argument, true)));
          }
        case Cast(_, _, _, operand) => BindExpression(scope, kind, operand);
        case UnaryOperation(_, operand) => BindExpression(scope, kind, operand);
        case BinaryOperation(left, _, right) =>
          BindExpression(scope, kind, left);
          BindExpression(scope, kind, right);
          ReferencesAppend(start, specialRegisters, scope, UsesOf(kind, Mentions(left, true)),
            UsesOf(kind, Mentions(right, true)));
        case Conditional(condition, _, whenTrue, _, whenFalse) =>
          BindExpression(scope, kind, condition);
          BindExpression(scope, kind, whenTrue);
          BindExpression(scope, kind, whenFalse);
          ReferencesAppend(start, specialRegisters, scope, UsesOf(kind, Mentions(condition, true)),
            UsesOf(kind, Mentions(whenTrue, true)));
          ReferencesAppend(start, specialRegisters, scope,
            UsesOf(kind, Mentions(condition, true)) + UsesOf(kind, Mentions(whenTrue, true)), UsesOf(kind,
              Mentions(whenFalse, true)));
      }
    }

    method BindInitializer(scope: nat, i: InitializerTree)
      requires Valid() && scope < |table.scopes|
      modifies this`diagnostics, table`references
      ensures Valid()
      ensures View() == AddReferences(old(View()), specialRegisters, scope, UsesOf(Initializer, InitializerMentions(i, true)))
      decreases i
    {
      hide SymbolTable.Valid, Sound, AddReferences, Mentions;
      NoReferences(View(), specialRegisters, scope);
      UsesOfNone(Initializer);
      match i {
        case Named(_, _, value) =>
          if !value.Symbol? {
            BindExpression(scope, Initializer, value);
          }
        case Scalar(value) => BindExpression(scope, Initializer, value);
        case Braced(_, elements, _) => BindElements(scope, elements);
      }
    }

    method BindElements(scope: nat, es: InitializerGrammar.Elements<Identifier>)
      requires Valid() && scope < |table.scopes|
      modifies this`diagnostics, table`references
      ensures Valid()
      ensures View() == AddReferences(old(View()), specialRegisters, scope, UsesOf(Initializer, ElementMentions(es, true)))
      decreases es
    {
      hide SymbolTable.Valid, Sound, AddReferences, InitializerMentions;
      NoReferences(View(), specialRegisters, scope);
      UsesOfNone(Initializer);
      match es {
        case NoMore =>
        case Final(last) => BindInitializer(scope, last);
        case Then(element, _, rest) =>
          BindInitializer(scope, element);
          BindElements(scope, rest);
          ReferencesAppend(old(View()), specialRegisters, scope, UsesOf(Initializer, InitializerMentions(element, true)),
            UsesOf(Initializer, ElementMentions(rest, true)));
          UsesAppend(Initializer, InitializerMentions(element, true), ElementMentions(rest, true));
      }
    }

    method BindArrayDimensions(scope: nat, dimensions: seq<Option<Expression>>)
      requires Valid() && scope < |table.scopes|
      modifies this`diagnostics, table`references
      ensures Valid() && View() == BindDimensions(old(View()), specialRegisters, scope, dimensions)
    {
      hide SymbolTable.Valid, Sound, AddReferences, Mentions, UsesOf;
      NoReferences(View(), specialRegisters, scope);
      UsesOfNone(ArrayDimension);
      for i := 0 to |dimensions|
        invariant Valid()
        invariant View() == AddReferences(old(View()), specialRegisters, scope,
                                          UsesOf(ArrayDimension, DimensionMentions(dimensions[..i])))
      {
        ghost var before := DimensionMentions(dimensions[..i]);
        ghost var size := if dimensions[i].Some? then Mentions(dimensions[i].value, true) else [];
        assert dimensions[..i + 1][..i] == dimensions[..i];
        NoReferences(View(), specialRegisters, scope);
        if dimensions[i].Some? {
          BindExpression(scope, ArrayDimension, dimensions[i].value);
        }
        ReferencesAppend(old(View()), specialRegisters, scope, UsesOf(ArrayDimension, before),
          UsesOf(ArrayDimension, size));
        UsesAppend(ArrayDimension, before, size);
      }
      assert dimensions[..|dimensions|] == dimensions;
    }

    method ReferenceAll(scope: nat, uses: seq<Use>)
      requires Valid() && scope < |table.scopes|
      modifies this`diagnostics, table`references
      ensures Valid() && View() == AddReferences(old(View()), specialRegisters, scope, uses)
    {
      hide SymbolTable.Valid, Sound, AddReference;
      for i := 0 to |uses|
        invariant Valid() && View() == AddReferences(old(View()), specialRegisters, scope, uses[..i])
      {
        assert uses[..i + 1][..i] == uses[..i];
        Reference(scope, uses[i].kind, uses[i].name);
      }
      assert uses[..|uses|] == uses;
    }

    /** Reference a name unless it is the write-only sink. */
    method ReferenceUnlessSink(scope: nat, kind: ReferenceKind, name: Identifier)
      requires Valid() && scope < |table.scopes|
      modifies this`diagnostics, table`references
      ensures Valid() && View() == AddReferences(old(View()), specialRegisters, scope, SinkOr(kind, name))
    {
      hide SymbolTable.Valid, Sound, AddReference, AddReferences;
      NoReferences(View(), specialRegisters, scope);
      if name.text != "_" {
        OneReference(View(), specialRegisters, scope, Use(kind, name));
        Reference(scope, kind, name);
      }
    }

    method BindVectorElements(scope: nat, elements: seq<VectorElement>)
      requires Valid() && scope < |table.scopes|
      modifies this`diagnostics, table`references
      ensures Valid() && View() == AddReferences(old(View()), specialRegisters, scope, ElementUses(elements))
    {
      hide SymbolTable.Valid, Sound, AddReference, AddReferences, SinkOr;
      NoReferences(View(), specialRegisters, scope);
      for i := 0 to |elements|
        invariant Valid() && View() == AddReferences(old(View()), specialRegisters, scope, ElementUses(elements[..i]))
      {
        assert elements[..i + 1][..i] == elements[..i];
        match elements[i] {
          case PlainElement(name) =>
            ReferenceUnlessSink(scope, InstructionOperand, name);
            ReferencesAppend(old(View()), specialRegisters, scope, ElementUses(elements[..i]),
              SinkOr(InstructionOperand, name));
          case MemberElement(base) =>
            OneReference(View(), specialRegisters, scope, Use(InstructionOperand, base));
            Reference(scope, InstructionOperand, base);
            ReferencesAppend(old(View()), specialRegisters, scope, ElementUses(elements[..i]),
              [Use(InstructionOperand, base)]);
        }
      }
      assert elements[..|elements|] == elements;
    }

    method BindOperand(scope: nat, o: Operand)
      requires Valid() && scope < |table.scopes|
      modifies this`diagnostics, table`references
      ensures Valid() && View() == AddReferences(old(View()), specialRegisters, scope, OperandUses(o))
    {
      hide SymbolTable.Valid, Sound, AddReference, AddReferences, SinkOr, ElementUses, Mentions, UsesOf;
      match o {
        case NameOperand(name) => ReferenceUnlessSink(scope, InstructionOperand, name);
        case RegisterPredicatePair(dst, predicated) =>
          ReferenceUnlessSink(scope, InstructionOperand, dst);
          ReferenceUnlessSink(scope, Predicate, predicated);
          ReferencesAppend(old(View()), specialRegisters, scope, SinkOr(InstructionOperand, dst),
            SinkOr(Predicate, predicated));
        case VectorPack(elements) => BindVectorElements(scope, elements);
        case ExpressionOperand(expression) => BindExpression(scope, InstructionOperand, expression);
        case OrderedUse(use, _) =>
          OneReference(View(), specialRegisters, scope, use);
          Reference(scope, use.kind, use.name);
        case OtherUses(uses) => ReferenceAll(scope, uses);
      }
    }

    method BindInstructionOperands(scope: nat, operands: seq<Operand>)
      requires Valid() && scope < |table.scopes|
      modifies this`diagnostics, table`references
      ensures Valid() && View() == BindOperands(old(View()), specialRegisters, scope, operands)
    {
      hide SymbolTable.Valid, Sound, AddReferences, OperandUses;
      for i := 0 to |operands|
        invariant Valid() && View() == BindOperands(old(View()), specialRegisters, scope, operands[..i])
      {
        assert operands[..i + 1][..i] == operands[..i];
        BindOperand(scope, operands[i]);
      }
      assert operands[..|operands|] == operands;
    }

    method BindVariableDeclaration(scope: nat, ds: seq<Declarator>)
      requires Valid() && scope < |table.scopes|
      modifies this`diagnostics, table`references
      ensures Valid() && View() == BindDeclarators(old(View()), specialRegisters, scope, ds)
    {
      hide SymbolTable.Valid, Sound, AddReferences, BindDimensions, InitializerMentions, UsesOf;
      for i := 0 to |ds|
        invariant Valid() && View() == BindDeclarators(old(View()), specialRegisters, scope, ds[..i])
      {
        assert ds[..i + 1][..i] == ds[..i];
        BindArrayDimensions(scope, ds[i].dimensions);
        NoReferences(View(), specialRegisters, scope);
        UsesOfNone(Initializer);
        if ds[i].initializer.Some? {
          BindInitializer(scope, ds[i].initializer.value);
        }
      }
      assert ds[..|ds|] == ds;
    }

    /** Bind a body's references; `ok` is false where the builder throws on a block without a scope. */
    method BindBodyItems(body: seq<BodyItem>, scope: nat) returns (ok: bool)
      requires Valid() && scope < |table.scopes|
      modifies this`diagnostics, table`references
      ensures Valid()
      ensures ok <==> BindBody(old(View()), specialRegisters, body, scope).Some?
      ensures ok ==> Some(View()) == BindBody(old(View()), specialRegisters, body, scope)
      decreases body
    {
      hide SymbolTable.Valid, BindItem;
      for i := 0 to |body|
        invariant Valid() && Some(View()) == BindBody(old(View()), specialRegisters, body[..i], scope)
      {
        assert body[..i + 1][..i] == body[..i];
        ok := BindBodyItem(body[i], scope);
        if !ok {
          BindBodyFails(old(View()), specialRegisters, body, scope, i + 1);
          return;
        }
      }
      assert body[..|body|] == body;
      return true;
    }

    method BindBodyItem(item: BodyItem, scope: nat) returns (ok: bool)
      requires Valid() && scope < |table.scopes|
      modifies this`diagnostics, table`references
      ensures Valid()
      ensures ok <==> BindItem(old(View()), specialRegisters, item, scope).Some?
      ensures ok ==> Some(View()) == BindItem(old(View()), specialRegisters, item, scope)
      decreases item
    {
      hide SymbolTable.Valid, AddReference, BindOperands, BindDeclarators, FirstBlockScope;
      match item {
        case VariablesItem(declaration) => BindVariableDeclaration(scope, declaration.declarators);
        case InstructionItem(guard, operands) =>
          if guard.Some? {
            Reference(scope, Predicate, guard.value);
          }
          BindInstructionOperands(scope, operands);
        case BlockItem(range, inner) =>
          var block := table.BlockScopeAt(scope, range);
          if block.None? {
            return false;
          }
          ok := BindBodyItems(inner, block.value);
          return;
        case _ =>
      }
      return true;
    }

    method BindParameterDimensions(scope: nat, ps: seq<Parameter>)
      requires Valid() && scope < |table.scopes|
      modifies this`diagnostics, table`references
      ensures Valid() && View() == BindParameters(old(View()), specialRegisters, scope, ps)
    {
      hide SymbolTable.Valid, Sound, BindDimensions;
      for i := 0 to |ps|
        invariant Valid() && View() == BindParameters(old(View()), specialRegisters, scope, ps[..i])
      {
        assert ps[..i + 1][..i] == ps[..i];
        BindArrayDimensions(scope, ps[i].dimensions);
      }
      assert ps[..|ps|] == ps;
    }

    method BindFunctionReferences(f: FunctionDeclaration, scope: nat) returns (ok: bool)
      requires Valid() && scope < |table.scopes|
      modifies this`diagnostics, table`references
      ensures Valid()
      ensures ok <==> BindFunction(old(View()), specialRegisters, f, scope).Some?
      ensures ok ==> Some(View()) == BindFunction(old(View()), specialRegisters, f, scope)
    {
      hide SymbolTable.Valid, BindParameters, BindBody;
      BindParameterDimensions(scope, f.returnParameters);
      BindParameterDimensions(scope, f.parameters);
      ok := BindBodyItems(f.body, scope);
    }

    method BindModuleDeclarations(items: seq<ModuleItem>)
      requires Valid()
      modifies this`diagnostics, table`references
      ensures Valid() && View() == BindModuleVariables(old(View()), specialRegisters, items)
    {
      hide SymbolTable.Valid, BindDeclarators;
      for i := 0 to |items|
        invariant Valid() && View() == BindModuleVariables(old(View()), specialRegisters, items[..i])
      {
        assert items[..i + 1][..i] == items[..i];
        match items[i] {
          case ModuleVariables(declaration) => BindVariableDeclaration(0, declaration.declarators);
          case _ =>
        }
      }
      assert items[..|items|] == items;
    }

    method BindAllFunctions() returns (ok: bool)
      requires Valid() && forall c :: c in functions ==> c.scope < |table.scopes|
      modifies this`diagnostics, table`references
      ensures Valid()
      ensures ok <==> BindFunctions(old(View()), specialRegisters, functions).Some?
      ensures ok ==> Some(View()) == BindFunctions(old(View()), specialRegisters, functions)
    {
      hide SymbolTable.Valid, BindFunction;
      for i := 0 to |functions|
        invariant Valid() && Some(View()) == BindFunctions(old(View()), specialRegisters, functions[..i])
      {
        assert functions[..i + 1][..i] == functions[..i];
        assert functions[i] in functions;
        ok := BindFunctionReferences(functions[i].declaration, functions[i].scope);
        if !ok {
          BindFunctionsFail(old(View()), specialRegisters, functions, i + 1);
          return;
        }
      }
      assert functions[..|functions|] == functions;
      return true;
    }

    /** Bind a module from an empty table: number its events, collect its declarations, bind its references. */
    method Build(items: seq<ModuleItem>) returns (ok: bool)
      requires Valid() && View() == InitialBinding() && functions == [] && NamedModule(items)
      modifies this, table.Repr
      ensures Valid()
      ensures ok <==> BindSymbols(items, specialRegisters).Some?
      ensures ok ==> Some(View()) == BindSymbols(items, specialRegisters)
    {
      hide SymbolTable.Valid, Sound, IndexEvents, CollectModule, BindModuleVariables, BindFunctions, FunctionContexts;
      CollectedBindable(items);
      IndexSourceOrder(items);
      CollectItems(items);
      BindModuleDeclarations(items);
      ok := BindAllFunctions();
    }
  }

  /** Once a function fails to bind, so do all. */
  lemma {:induction false} BindFunctionsFail(b: Binding, specials: set<string>, contexts: seq<FunctionContext>, n: nat)
    requires ScopesNest(b.scopes) && forall c :: c in contexts ==> c.scope < |b.scopes|
    requires n <= |contexts| && BindFunctions(b, specials, contexts[..n]).None?
    ensures BindFunctions(b, specials, contexts).None?
    decreases |contexts|
  {
    if n == |contexts| {
      assert contexts[..n] == contexts;
    } else {
      var init := contexts[..|contexts| - 1];
      assert init[..n] == contexts[..n];
      BindFunctionsFail(b, specials, init, n);
    }
  }

  /** A successful lookup names a stored symbol. */
  lemma {:induction false} LookupFindsSymbol(scopes: seq<Scope>, symbols: seq<Symbol>, scope: nat, name: string)
    requires ScopesNest(scopes) && scope < |scopes| && LinearLookup(scopes, symbols, scope, name).Some?
    ensures LinearLookup(scopes, symbols, scope, name).value.symbol < |symbols|
    decreases scope
  {
    var exact := FirstMatch(symbols, Exactly(scope, DeclaredName(name, None)));
    if exact.None? && FirstMatch(symbols, Covering(scope, name)).None? {
      LookupFindsSymbol(scopes, symbols, scopes[scope].parent.value, name);
    }
  }

  /** Once an item of a body fails to bind, so does the whole body. */
  lemma {:induction false} BindBodyFails(b: Binding, specials: set<string>, body: seq<BodyItem>, scope: nat, n: nat)
    requires ScopesNest(b.scopes) && scope < |b.scopes|
    requires n <= |body| && BindBody(b, specials, body[..n], scope).None?
    ensures BindBody(b, specials, body, scope).None?
    decreases |body|
  {
    if n == |body| {
      assert body[..n] == body;
    } else {
      var init := body[..|body| - 1];
      assert init[..n] == body[..n];
      BindBodyFails(b, specials, init, scope, n);
    }
  }

  lemma {:induction false} FindMetadataExtends(symbols: seq<Symbol>, n: nat, kind: SymbolKind, name: string)
    requires n <= |symbols| && FindMetadata(symbols[..n], kind, name).Some?
    ensures FindMetadata(symbols, kind, name) == FindMetadata(symbols[..n], kind, name)
    decreases |symbols|
  {
    if n == |symbols| {
      assert symbols[..n] == symbols;
    } else {
      var init := symbols[..|symbols| - 1];
      assert init[..n] == symbols[..n];
      FindMetadataExtends(init, n, kind, name);
    }
  }

  lemma NoReferences(b: Binding, specials: set<string>, scope: nat)
    requires ScopesNest(b.scopes) && scope < |b.scopes|
    ensures AddReferences(b, specials, scope, []) == b
  {
  }

  lemma OneReference(b: Binding, specials: set<string>, scope: nat, use: Use)
    requires ScopesNest(b.scopes) && scope < |b.scopes|
    ensures AddReferences(b, specials, scope, [use]) == AddReference(b, specials, scope, use.kind, use.name)
  {
    hide AddReference;
    assert [use][..0] == [];
    NoReferences(b, specials, scope);
  }

  lemma {:induction false} ReferencesAppend(b: Binding, specials: set<string>, scope: nat, first: seq<Use>,
                                            second: seq<Use>)
    requires ScopesNest(b.scopes) && scope < |b.scopes|
    ensures AddReferences(b, specials, scope, first + second)
      == AddReferences(AddReferences(b, specials, scope, first), specials, scope, second)
  {
    hide AddReference;
    if second == [] {
      assert first + second == first;
    } else {
      assert (first + second)[..|first + second| - 1] == first + second[..|second| - 1];
      ReferencesAppend(b, specials, scope, first, second[..|second| - 1]);
    }
  }

  lemma UsesAppend(kind: ReferenceKind, first: seq<Identifier>, second: seq<Identifier>)
    ensures UsesOf(kind, first + second) == UsesOf(kind, first) + UsesOf(kind, second)
  {
  }

  lemma UsesOfNone(kind: ReferenceKind)
    ensures UsesOf(kind, []) == []
  {
  }

  lemma RangesAppend(first: seq<Identifier>, second: seq<Identifier>)
    ensures Ranges(first + second) == Ranges(first) + Ranges(second)
  {
  }

  lemma RangesOfNone()
    ensures Ranges([]) == []
  {
  }

  /** The numbered mentions of an expression, part by part. */
  lemma MentionRanges(e: Expression)
    ensures match e
      case Literal(_) => Ranges(Mentions(e, false)) == []
      case Symbol(name) => Ranges(Mentions(e, false)) == [name.range]
      case Call(c, _, a, _) => Ranges(Mentions(e, false)) == Ranges(Mentions(c, false)) + Ranges(Mentions(a, false))
      case BinaryOperation(l, _, r) => Ranges(Mentions(e, false)) == Ranges(Mentions(l, false)) + Ranges(Mentions(r, false))
      case Conditional(c, _, t, _, f) =>
        Ranges(Mentions(e, false)) == Ranges(Mentions(c, false)) + Ranges(Mentions(t, false)) + Ranges(Mentions(f, false))
      case _ => true
  {
    hide AppliesOperator;
  }

  /** The references of an expression, part by part. */
  lemma MentionUses(kind: ReferenceKind, e: Expression)
    ensures match e
      case Literal(_) => UsesOf(kind, Mentions(e, true)) == []
      case Symbol(name) => UsesOf(kind, Mentions(e, true)) == [Use(kind, name)]
      case Call(c, _, a, _) =>
        UsesOf(kind, Mentions(e, true)) == if AppliesOperator(e) then UsesOf(kind, Mentions(a, true))
                                           else UsesOf(kind, Mentions(c, true)) + UsesOf(kind, Mentions(a, true))
      case BinaryOperation(l, _, r) =>
        UsesOf(kind, Mentions(e, true)) == UsesOf(kind, Mentions(l, true)) + UsesOf(kind, Mentions(r, true))
      case Conditional(c, _, t, _, f) =>
        UsesOf(kind, Mentions(e, true))
        == UsesOf(kind, Mentions(c, true)) + UsesOf(kind, Mentions(t, true)) + UsesOf(kind, Mentions(f, true))
      case _ => true
  {
    hide AppliesOperator;
  }

  lemma NoEvents(b: Binding)
    ensures IndexEvents(b, []) == b
  {
  }

  lemma OneEvent(b: Binding, range: SourceRange)
    ensures IndexEvents(b, [range]) == IndexSourceRange(b, range)
  {
    assert [range][..0] == [];
  }

  lemma {:induction false} EventsAppend(b: Binding, first: seq<SourceRange>, second: seq<SourceRange>)
    ensures IndexEvents(b, first + second) == IndexEvents(IndexEvents(b, first), second)
  {
    if second == [] {
      assert first + second == first;
    } else {
      assert (first + second)[..|first + second| - 1] == first + second[..|second| - 1];
      EventsAppend(b, first, second[..|second| - 1]);
    }
  }
}
