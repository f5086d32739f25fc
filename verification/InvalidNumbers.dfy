/** Which counts and debug file ids are reported as invalid: those that spell no number, or none in range, in order. */
module InvalidNumbers {
  import opened Common
  import opened Symbols
  import opened LexicalBinding
  import opened BindingPass
  import opened CollectingPass
  import opened BoundModule
  import opened IntegerSpellings
  import opened SymbolLog

  /** The reports of invalid numbers, in order. */
  function InvalidAmong(diagnostics: seq<BindDiagnostic>): seq<BindDiagnostic> {
    if diagnostics == [] then []
    else
      var d := diagnostics[|diagnostics| - 1];
      InvalidAmong(diagnostics[..|diagnostics| - 1])
      + (if d.InvalidParameterizedCount? || d.InvalidDebugFileId? then [d] else [])
  }

  // ---- what is invalid in a module --------------------------------------------------------------

  ghost function InvalidCounts(ds: seq<Declarator>): seq<BindDiagnostic> {
    if ds == [] then []
    else
      var count := ds[|ds| - 1].count;
      InvalidCounts(ds[..|ds| - 1])
      + (if count.Some? && !exists v: nat :: IsCount(count.value.text, v)
         then [InvalidParameterizedCount(count.value.range)] else [])
  }

  ghost function InvalidInBody(body: seq<BodyItem>): seq<BindDiagnostic>
    decreases body
  {
    if body == [] then [] else InvalidInBody(body[..|body| - 1]) + InvalidInItem(body[|body| - 1])
  }

  ghost function InvalidInItem(item: BodyItem): seq<BindDiagnostic>
    decreases item
  {
    match item
    case VariablesItem(declaration) => InvalidCounts(declaration.declarators)
    case BlockItem(_, body) => InvalidInBody(body)
    case _ => []
  }

  /** A debug file id must spell a 64-bit number. */
  ghost function InvalidInModule(items: seq<ModuleItem>): seq<BindDiagnostic> {
    if items == [] then []
    else
      InvalidInModule(items[..|items| - 1]) +
      match items[|items| - 1]
      case ModuleVariables(declaration) => InvalidCounts(declaration.declarators)
      case FileItem(id) =>
        if exists v: nat :: Denotes(id.text, v) && v < 0x1_0000_0000_0000_0000 then [] else [InvalidDebugFileId(id.range)]
      case DebugStringItem(_, _) => []
      case FunctionItem(f) => InvalidInBody(f.body)
  }

  // ---- every step reports just these ------------------------------------------------------------

  ghost predicate Reports(b: Binding, after: Binding, more: seq<BindDiagnostic>) {
    InvalidAmong(after.diagnostics) == InvalidAmong(b.diagnostics) + more
  }

  lemma ReportsBoth(a: Binding, b: Binding, c: Binding, first: seq<BindDiagnostic>, second: seq<BindDiagnostic>)
    requires Reports(a, b, first) && Reports(b, c, second)
    ensures Reports(a, c, first + second)
  {
  }

  lemma ReportsNothing(b: Binding, after: Binding)
    requires after.diagnostics == b.diagnostics
    ensures Reports(b, after, [])
  {
  }

  lemma ReportsOne(b: Binding, after: Binding, d: BindDiagnostic)
    requires after.diagnostics == b.diagnostics + [d]
    ensures Reports(b, after, if d.InvalidParameterizedCount? || d.InvalidDebugFileId? then [d] else [])
  {
    assert (b.diagnostics + [d])[..|b.diagnostics|] == b.diagnostics;
  }

  lemma AddReports(b: Binding, scope: nat, d: Declaration, allow: bool)
    ensures Reports(b, AddSymbol(b, scope, d, allow).0, [])
  {
    hide Reports;
    var after := AddSymbol(b, scope, d, allow).0;
    if after.diagnostics == b.diagnostics {
      ReportsNothing(b, after);
    } else {
      ReportsOne(b, after, after.diagnostics[|b.diagnostics|]);
    }
  }

  lemma DeclaratorReports(b: Binding, scope: nat, declaration: VariableDeclaration, d: Declarator)
    ensures Reports(b, CollectDeclarator(b, scope, declaration, d),
                    if d.count.Some? && !exists v: nat :: IsCount(d.count.value.text, v)
                    then [InvalidParameterizedCount(d.count.value.range)] else [])
  {
    hide Reports, AddSymbol, IsCount;
    var kind := if scope != 0 && declaration.inParameterSpace then CallParameter else Variable;
    var (counted, count) := ParameterizedCount(b, d.count);
    var full := Declaration(kind, MemberNames.DeclaredName(d.name.text, count), d.name.range, declaration.linkage,
                            d.dimensions != []);
    var (added, symbol) := AddSymbol(counted, scope, full, scope == 0);
    CountIsWritten(b, d.count);
    if d.count.Some? && !exists v: nat :: IsCount(d.count.value.text, v) {
      ReportsOne(b, counted, InvalidParameterizedCount(d.count.value.range));
    } else {
      ReportsNothing(b, counted);
    }
    AddReports(counted, scope, full, scope == 0);
    ReportsNothing(added, CollectDeclarator(b, scope, declaration, d));
    var more := if d.count.Some? && !exists v: nat :: IsCount(d.count.value.text, v)
                then [InvalidParameterizedCount(d.count.value.range)] else [];
    ReportsBoth(b, counted, added, more, []);
    ReportsBoth(b, added, CollectDeclarator(b, scope, declaration, d), more + [], []);
    assert more + [] + [] == more;
  }

  lemma {:induction false} DeclaratorsReport(b: Binding, scope: nat, declaration: VariableDeclaration, ds: seq<Declarator>)
    ensures Reports(b, CollectDeclarators(b, scope, declaration, ds), InvalidCounts(ds))
  {
    hide Reports, CollectDeclarator, IsCount;
    if ds == [] {
      ReportsNothing(b, b);
    } else {
      var init, d := ds[..|ds| - 1], ds[|ds| - 1];
      var before := CollectDeclarators(b, scope, declaration, init);
      DeclaratorsReport(b, scope, declaration, init);
      DeclaratorReports(before, scope, declaration, d);
      ReportsBoth(b, before, CollectDeclarators(b, scope, declaration, ds), InvalidCounts(init),
        if d.count.Some? && !exists v: nat :: IsCount(d.count.value.text, v)
        then [InvalidParameterizedCount(d.count.value.range)] else []);
    }
  }

  lemma {:induction false} BodyReports(b: Binding, body: seq<BodyItem>, functionScope: nat, scope: nat)
    ensures Reports(b, CollectBody(b, body, functionScope, scope), InvalidInBody(body))
    decreases body
  {
    hide Reports, CollectItem, InvalidInItem;
    if body == [] {
      ReportsNothing(b, b);
    } else {
      var init, last := body[..|body| - 1], body[|body| - 1];
      var before := CollectBody(b, init, functionScope, scope);
      BodyReports(b, init, functionScope, scope);
      ItemReports(before, last, functionScope, scope);
      ReportsBoth(b, before, CollectBody(b, body, functionScope, scope), InvalidInBody(init), InvalidInItem(last));
    }
  }

  lemma {:induction false} ItemReports(b: Binding, item: BodyItem, functionScope: nat, scope: nat)
    ensures Reports(b, CollectItem(b, item, functionScope, scope), InvalidInItem(item))
    decreases item
  {
    hide Reports, AddSymbol, CollectDeclarators, CollectBody, InvalidCounts, InvalidInBody;
    match item
    case VariablesItem(declaration) => DeclaratorsReport(b, scope, declaration, declaration.declarators);
    case LabelItem(name) => OrdinaryReports(b, functionScope, Label, name);
    case CallPrototypeItem(name) => OrdinaryReports(b, functionScope, CallPrototype, name);
    case CallTargetsItem(name) => OrdinaryReports(b, functionScope, CallTargetSet, name);
    case BranchTargetsItem(name) =>
      var (added, symbol) := AddOrdinary(b, functionScope, BranchTargetSet, name);
      OrdinaryReports(b, functionScope, BranchTargetSet, name);
      ReportsNothing(added, RecordOccurrence(added, symbol, name.range, None));
      ReportsBoth(b, added, RecordOccurrence(added, symbol, name.range, None), [], []);
      assert InvalidInItem(item) + [] == InvalidInItem(item);
    case InstructionItem(_, _) => ReportsNothing(b, b);
    case BlockItem(range, body) =>
      var entered := AddBlockScope(b, scope, range);
      ReportsNothing(b, entered);
      BodyReports(entered, body, functionScope, |b.scopes|);
      ReportsBoth(b, entered, CollectBody(entered, body, functionScope, |b.scopes|), [], InvalidInBody(body));
      assert [] + InvalidInBody(body) == InvalidInBody(body);
  }

  lemma OrdinaryReports(b: Binding, scope: nat, kind: SymbolKind, name: Identifier)
    ensures Reports(b, AddOrdinary(b, scope, kind, name).0, [])
  {
    hide Reports, AddSymbol;
    AddReports(b, scope, Declaration(kind, MemberNames.DeclaredName(name.text, None), name.range, NoLinkage, false), false);
  }

  lemma {:induction false} ParametersReport(b: Binding, scope: nat, kind: SymbolKind, ps: seq<Parameter>)
    ensures Reports(b, CollectParameters(b, scope, kind, ps), [])
  {
    hide Reports, AddSymbol;
    if ps == [] {
      ReportsNothing(b, b);
    } else {
      var init, p := ps[..|ps| - 1], ps[|ps| - 1];
      var before := CollectParameters(b, scope, kind, init);
      ParametersReport(b, scope, kind, init);
      AddReports(before, scope, Declaration(kind, MemberNames.DeclaredName(p.name.text, None), p.name.range, NoLinkage,
                                            p.dimensions != []), false);
      ReportsBoth(b, before, CollectParameters(b, scope, kind, ps), [], []);
      NothingTwice();
    }
  }

  lemma NothingTwice()
    ensures var none: seq<BindDiagnostic> := []; none + none == none
  {
  }

  lemma FunctionReports(b: Binding, f: FunctionDeclaration)
    ensures Reports(b, CollectFunction(b, f), InvalidInBody(f.body))
  {
    hide Reports, AddSymbol, CollectParameters, CollectBody, InvalidInBody;
    var d := Declaration(SymbolKind.Function, MemberNames.DeclaredName(f.name.text, None), f.name.range, f.linkage, false);
    var (added, symbol) := AddSymbol(b, 0, d, true);
    var entered := OpenedFunction(b, f);
    var outputs := CollectParameters(entered, |b.scopes|, ReturnParameter, f.returnParameters);
    AddReports(b, 0, d, true);
    ReportsNothing(added, entered);
    ReportsBoth(b, added, entered, [], []);
    ParametersReport(entered, |b.scopes|, ReturnParameter, f.returnParameters);
    NothingTwice();
    ReportsBoth(b, entered, outputs, [], []);
    ParametersReport(outputs, |b.scopes|, InputParameter, f.parameters);
    ReportsBoth(b, outputs, CollectFunctionHeader(b, f), [], []);
    BodyReports(CollectFunctionHeader(b, f), f.body, |b.scopes|, |b.scopes|);
    ReportsBoth(b, CollectFunctionHeader(b, f), CollectFunction(b, f), [], InvalidInBody(f.body));
    assert [] + InvalidInBody(f.body) == InvalidInBody(f.body);
  }

  lemma MetadataReports(b: Binding, kind: SymbolKind, name: string, range: SourceRange, idempotent: bool)
    ensures Reports(b, AddMetadata(b, kind, name, range, idempotent), [])
  {
    hide Reports, FindMetadata;
    var after := AddMetadata(b, kind, name, range, idempotent);
    if after.diagnostics == b.diagnostics {
      ReportsNothing(b, after);
    } else {
      ReportsOne(b, after, after.diagnostics[|b.diagnostics|]);
    }
  }

  lemma {:induction false} LabelsReport(b: Binding, labels: seq<Identifier>)
    ensures Reports(b, CollectLabels(b, labels), [])
  {
    hide Reports, AddMetadata;
    if labels == [] {
      ReportsNothing(b, b);
    } else {
      var init, last := labels[..|labels| - 1], labels[|labels| - 1];
      LabelsReport(b, init);
      MetadataReports(CollectLabels(b, init), DebugStringLabel, last.text, last.range, false);
      ReportsBoth(b, CollectLabels(b, init), CollectLabels(b, labels), [], []);
      NothingTwice();
    }
  }

  lemma FileReports(b: Binding, id: Identifier)
    ensures Reports(b, CollectFile(b, id),
                    if exists v: nat :: Denotes(id.text, v) && v < 0x1_0000_0000_0000_0000 then []
                    else [InvalidDebugFileId(id.range)])
  {
    hide Reports, AddMetadata, Denotes, IntegerMagnitude.Magnitude;
    var magnitude := IntegerMagnitude.Magnitude(id.text);
    if magnitude.Some? {
      MagnitudeIsSpelled(id.text, magnitude.value);
      MetadataReports(b, DebugFile, MemberNames.Decimal(magnitude.value), id.range, false);
    } else {
      forall v: nat ensures !(Denotes(id.text, v) && v < 0x1_0000_0000_0000_0000) {
        MagnitudeIsSpelled(id.text, v);
      }
      ReportsOne(b, CollectFile(b, id), InvalidDebugFileId(id.range));
    }
  }

  lemma {:induction false} ModuleReports(b: Binding, items: seq<ModuleItem>)
    ensures Reports(b, CollectModule(b, items), InvalidInModule(items))
  {
    hide Reports, CollectDeclarators, CollectFile, CollectLabels, AddMetadata, CollectFunction, InvalidCounts, InvalidInBody,
      Denotes;
    if items == [] {
      ReportsNothing(b, b);
    } else {
      var init, last := items[..|items| - 1], items[|items| - 1];
      var before, after := CollectModule(b, init), CollectModule(b, items);
      ModuleReports(b, init);
      match last
      case ModuleVariables(declaration) =>
        DeclaratorsReport(before, 0, declaration, declaration.declarators);
        ReportsBoth(b, before, after, InvalidInModule(init), InvalidCounts(declaration.declarators));
      case FileItem(id) =>
        FileReports(before, id);
        ReportsBoth(b, before, after, InvalidInModule(init),
          if exists v: nat :: Denotes(id.text, v) && v < 0x1_0000_0000_0000_0000 then [] else [InvalidDebugFileId(id.range)]);
      case DebugStringItem(section, labels) =>
        var labelled := AddMetadata(before, DebugStringLabel, section.text, section.range, true);
        MetadataReports(before, DebugStringLabel, section.text, section.range, true);
        LabelsReport(labelled, labels);
        ReportsBoth(before, labelled, after, [], []);
        NothingTwice();
        ReportsBoth(b, before, after, InvalidInModule(init), []);
      case FunctionItem(f) =>
        FunctionReports(before, f);
        ReportsBoth(b, before, after, InvalidInModule(init), InvalidInBody(f.body));
    }
  }

  lemma {:induction false} OthersAreValid(before: seq<BindDiagnostic>, after: seq<BindDiagnostic>)
    requires before <= after && forall k :: |before| <= k < |after| ==> after[k].UnresolvedReference?
    ensures InvalidAmong(after) == InvalidAmong(before)
    decreases |after|
  {
    if |after| > |before| {
      OthersAreValid(before, after[..|after| - 1]);
    } else {
      assert after == before;
    }
  }

  /** A bound module reports, in order, exactly the counts that spell no positive 32-bit number and the bad file ids. */
  lemma InvalidReported(items: seq<ModuleItem>, specials: set<string>)
    requires NamedModule(items) && BindSymbols(items, specials).Some?
    ensures InvalidAmong(BindSymbols(items, specials).value.diagnostics) == InvalidInModule(items)
  {
    hide NamedModule, BindSymbols, Sound, AllResolvedLinearly, SpellingsDisjoint, InvalidInModule, InvalidAmong;
    var initial := IndexEvents(InitialBinding(), ModuleEvents(items));
    IndexEventsSound(ModuleEvents(items));
    ModuleReports(initial, items);
    NothingAmongNone();
    BoundModuleIsSound(items, specials);
    OthersAreValid(Collected(items).diagnostics, BindSymbols(items, specials).value.diagnostics);
  }

  lemma NothingAmongNone()
    ensures InvalidAmong([]) == []
  {
  }
}
