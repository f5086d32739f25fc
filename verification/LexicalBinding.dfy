/** The binding pass as a simple specification: linear scans over the stored symbols, no indexes. */
module LexicalBinding {
  import opened Common
  import opened MemberNames
  import opened Symbols
  import opened ScopeIndex

  datatype ScopeKind = ModuleScope | FunctionScope | BlockScope

  datatype Scope = Scope(id: nat, kind: ScopeKind, parent: Option<nat>, owner: Option<nat>, range: Option<SourceRange>)

  /** One place where a symbol is declared; a declarator also keeps the range of all of it. */
  datatype Occurrence = Occurrence(symbol: nat, range: SourceRange, lexicalOrder: Option<nat>, variableRange: Option<SourceRange>)

  datatype ReferenceKind =
    | InstructionOperand | Predicate | Initializer | ArrayDimension | CallTargetReference | CallTargetSetReference
    | BranchTarget | BranchTargetSetReference | CallReturnParameter | CallArgument

  datatype Classification = DeclaredSymbol | ExternalSymbol | SpecialRegister | Unresolved

  datatype SymbolReference = SymbolReference(
    scope: nat, kind: ReferenceKind, spelling: string, range: SourceRange,
    classification: Classification, target: Option<SymbolLookup>)

  /**
   * A duplicate is reported in one of two messages: a repetition of one name, or two names that produce a
   * common spelling.
   */
  datatype BindDiagnostic =
    | DuplicateSymbol(range: SourceRange, previousRange: SourceRange, overlapping: bool)
    | InvalidParameterizedCount(range: SourceRange)
    | InvalidDebugFileId(range: SourceRange)
    | UnresolvedReference(range: SourceRange)

  /** Everything the binding pass accumulates. */
  datatype Binding = Binding(
    scopes: seq<Scope>,
    symbols: seq<Symbol>,
    occurrences: seq<seq<Occurrence>>,
    references: seq<SymbolReference>,
    sourceOrders: map<SourceRange, nat>,
    ambiguous: set<SourceRange>,
    nextSourceOrder: nat,
    diagnostics: seq<BindDiagnostic>)

  /** Two bindings that differ at most in their references and in further reports of unresolved ones. */
  predicate SameTable(b: Binding, after: Binding) {
    && after.scopes == b.scopes && after.symbols == b.symbols && after.occurrences == b.occurrences
    && after.sourceOrders == b.sourceOrders && b.diagnostics <= after.diagnostics
    && forall k :: |b.diagnostics| <= k < |after.diagnostics| ==> after.diagnostics[k].UnresolvedReference?
  }

  // ---- linear scans -----------------------------------------------------------------------------

  /** The questions the table answers about one scope's non-metadata declarations. */
  datatype Query =
    | Exactly(scope: nat, d: DeclaredName)
    | Covering(scope: nat, name: string)
    | Overlapping(scope: nat, d: DeclaredName)

  predicate Matches(q: Query, s: Symbol) {
    && s.scope == q.scope && !s.IsMetadata()
    && match q
       case Exactly(_, d) => s.name == d.name && s.parameterizedCount.Some? == d.count.Some?
       case Covering(_, name) =>
         s.parameterizedCount.Some? && ParameterizedNameContains(s.name, s.parameterizedCount.value, name)
       case Overlapping(_, d) => SymbolNameSetsOverlap(s.Declared(), d)
  }

  /** The first stored symbol that matches, as a scan from the front finds it. */
  function FirstMatch(symbols: seq<Symbol>, q: Query): (r: Option<nat>)
    ensures r.Some? ==> r.value < |symbols| && Matches(q, symbols[r.value])
  {
    if symbols == [] then None
    else
      var earlier := FirstMatch(symbols[..|symbols| - 1], q);
      if earlier.Some? then earlier
      else if Matches(q, symbols[|symbols| - 1]) then Some(|symbols| - 1)
      else None
  }

  ghost function MatchingIds(symbols: seq<Symbol>, q: Query): set<nat> {
    set i: nat | i < |symbols| && Matches(q, symbols[i])
  }

  /** The scan finds the matching symbol of lowest id, and misses none. */
  lemma {:induction false} FirstMatchIsEarliest(symbols: seq<Symbol>, q: Query)
    ensures IsEarliest(FirstMatch(symbols, q), MatchingIds(symbols, q))
    ensures forall i :: 0 <= i < |symbols| && Matches(q, symbols[i]) ==>
      FirstMatch(symbols, q).Some? && FirstMatch(symbols, q).value <= i
  {
    if symbols != [] {
      var init := symbols[..|symbols| - 1];
      FirstMatchIsEarliest(init, q);
      forall i | 0 <= i < |symbols| && Matches(q, symbols[i])
        ensures FirstMatch(symbols, q).Some? && FirstMatch(symbols, q).value <= i
      {
        if i < |init| {
          assert init[i] == symbols[i];
        }
      }
    }
  }

  /** Scope ids are positions, and every parent has a smaller id. */
  ghost predicate ScopesNest(scopes: seq<Scope>) {
    forall i :: 0 <= i < |scopes| ==>
      scopes[i].id == i && (scopes[i].parent.Some? ==> scopes[i].parent.value < i)
  }

  /** Lookup by linear scans: in each scope the exact name, else the first covering group, then the parent. */
  function LinearLookup(scopes: seq<Scope>, symbols: seq<Symbol>, scope: nat, name: string): Option<SymbolLookup>
    requires ScopesNest(scopes) && scope < |scopes|
    decreases scope
  {
    var exact := FirstMatch(symbols, Exactly(scope, DeclaredName(name, None)));
    if exact.Some? then Some(SymbolLookup(exact.value, None))
    else
      var group := FirstMatch(symbols, Covering(scope, name));
      if group.Some? then Some(SymbolLookup(group.value, ParseParameterizedIndex(symbols[group.value].name, name)))
      else if scopes[scope].parent.Some? then LinearLookup(scopes, symbols, scopes[scope].parent.value, name)
      else None
  }

  // ---- declarations -----------------------------------------------------------------------------

  /** One declaration as the builder receives it. */
  datatype Declaration = Declaration(
    kind: SymbolKind, declared: DeclaredName, range: SourceRange, linkage: SymbolLinkage, isArray: bool)

  function InitialBinding(): Binding {
    Binding([Scope(0, ModuleScope, None, None, None)], [], [], [], map[], {}, 0, [])
  }

  /** What adding a declaration does: a redeclaration joins the stored symbol, an overlap is diagnosed once. */
  function AddSymbol(b: Binding, scope: nat, d: Declaration, allowRedeclaration: bool): (r: (Binding, nat))
  {
    var exact := FirstMatch(b.symbols, Exactly(scope, d.declared));
    if exact.Some? then
      var existing := b.symbols[exact.value];
      (b.(symbols := b.symbols[exact.value := existing.(isArray := existing.isArray || d.isArray)],
          diagnostics := if allowRedeclaration then b.diagnostics
                         else b.diagnostics + [DuplicateSymbol(d.range, existing.declarationRange, false)]),
       exact.value)
    else
      var overlap := FirstMatch(b.symbols, Overlapping(scope, d.declared));
      (b.(symbols := b.symbols + [Symbol(|b.symbols|, scope, d.kind, d.declared.name, d.range, d.linkage, d.isArray,
                                         d.declared.count, None)],
          occurrences := b.occurrences + [[]],
          diagnostics := if overlap.None? then b.diagnostics
                         else b.diagnostics + [DuplicateSymbol(d.range, b.symbols[overlap.value].declarationRange, true)]),
       |b.symbols|)
  }

  // ---- what is reported -------------------------------------------------------------------------

  /** Distinct lexical declarations of one scope never stand for a common spelling. */
  ghost predicate SpellingsDisjoint(symbols: seq<Symbol>) {
    forall i, j :: 0 <= i < j < |symbols| ==> !Collide(symbols, i, j)
  }

  /** Two lexical declarations of one scope that stand for a common spelling. */
  ghost predicate Collide(symbols: seq<Symbol>, i: nat, j: nat)
    requires i < |symbols| && j < |symbols|
  {
    && symbols[i].scope == symbols[j].scope && !symbols[i].IsMetadata() && !symbols[j].IsMetadata()
    && ShareSpelling(symbols[i].Declared(), symbols[j].Declared())
  }

  /** The first stored declaration that the `j`th one met when it was added. */
  function FirstMet(symbols: seq<Symbol>, j: nat): (r: Option<nat>)
    requires j < |symbols|
    ensures r.Some? ==> r.value < j
  {
    FirstMatch(symbols[..j], Overlapping(symbols[j].scope, symbols[j].Declared()))
  }

  /** A declaration that met an earlier one is reported beside the first it met. */
  ghost predicate MeetingReported(symbols: seq<Symbol>, diagnostics: seq<BindDiagnostic>, j: nat)
    requires j < |symbols|
  {
    !symbols[j].IsMetadata() && FirstMet(symbols, j).Some? ==>
      DuplicateSymbol(symbols[j].declarationRange, symbols[FirstMet(symbols, j).value].declarationRange, true) in diagnostics
  }

  ghost predicate MeetingsReported(symbols: seq<Symbol>, diagnostics: seq<BindDiagnostic>) {
    forall j :: 0 <= j < |symbols| ==> MeetingReported(symbols, diagnostics, j)
  }

  /** What a report names is stored: for an overlap two declarations that met, for a repetition the one repeated. */
  ghost predicate NamesStored(symbols: seq<Symbol>, d: BindDiagnostic) {
    d.DuplicateSymbol? ==>
      if d.overlapping then
        exists j :: 0 <= j < |symbols| && Met(symbols, j) && symbols[j].declarationRange == d.range
          && symbols[FirstMet(symbols, j).value].declarationRange == d.previousRange
      else exists i :: 0 <= i < |symbols| && symbols[i].declarationRange == d.previousRange
  }

  ghost predicate Met(symbols: seq<Symbol>, j: nat)
    requires j < |symbols|
  {
    !symbols[j].IsMetadata() && FirstMet(symbols, j).Some?
  }

  ghost predicate ReportsTrue(symbols: seq<Symbol>, diagnostics: seq<BindDiagnostic>) {
    forall k :: 0 <= k < |diagnostics| ==> NamesStored(symbols, diagnostics[k])
  }

  ghost predicate WellFormed(b: Binding) {
    && |b.scopes| > 0 && ScopesNest(b.scopes)
    && |b.occurrences| == |b.symbols|
    && (forall i :: 0 <= i < |b.symbols| ==>
          && b.symbols[i].id == i && b.symbols[i].scope < |b.scopes|
          && (!b.symbols[i].IsMetadata() ==> b.symbols[i].name != ""))
    && FormsDistinct(b.symbols)
    && MeetingsReported(b.symbols, b.diagnostics) && ReportsTrue(b.symbols, b.diagnostics)
  }

  /** At most one stored lexical symbol per scope, spelling and form. */
  ghost predicate FormsDistinct(symbols: seq<Symbol>) {
    forall i, j :: 0 <= i < j < |symbols| && symbols[i].scope == symbols[j].scope
      && !symbols[i].IsMetadata() && !symbols[j].IsMetadata()
      ==> symbols[i].name != symbols[j].name || symbols[i].parameterizedCount.Some? != symbols[j].parameterizedCount.Some?
  }

  lemma InitialWellFormed()
    ensures WellFormed(InitialBinding())
  {
  }

  // ---- what steps keep --------------------------------------------------------------------------

  /** Only fields that no scan and no report reads may differ. */
  ghost predicate SameDeclarations(before: seq<Symbol>, after: seq<Symbol>) {
    |before| == |after| && forall i :: 0 <= i < |before| ==>
      && after[i].id == before[i].id && after[i].scope == before[i].scope && after[i].kind == before[i].kind
      && after[i].Declared() == before[i].Declared() && after[i].declarationRange == before[i].declarationRange
  }

  lemma {:induction false} SameMatch(before: seq<Symbol>, after: seq<Symbol>, q: Query)
    requires SameDeclarations(before, after)
    ensures FirstMatch(after, q) == FirstMatch(before, q)
  {
    hide ParameterizedNameContains, SymbolNameSetsOverlap;
    if before != [] {
      SameMatch(before[..|before| - 1], after[..|after| - 1], q);
    }
  }

  lemma SameMeetings(before: seq<Symbol>, after: seq<Symbol>)
    requires SameDeclarations(before, after)
    ensures forall j :: 0 <= j < |before| ==> FirstMet(after, j) == FirstMet(before, j) && Met(after, j) == Met(before, j)
  {
    hide FirstMatch;
    forall j | 0 <= j < |before| ensures FirstMet(after, j) == FirstMet(before, j) {
      SameMatch(before[..j], after[..j], Overlapping(before[j].scope, before[j].Declared()));
    }
  }

  /** Keeping the declarations keeps true reports true and made reports made. */
  lemma SameReports(before: seq<Symbol>, after: seq<Symbol>, diagnostics: seq<BindDiagnostic>, more: seq<BindDiagnostic>)
    requires SameDeclarations(before, after) && diagnostics <= more
    requires MeetingsReported(before, diagnostics) && ReportsTrue(before, diagnostics)
    requires forall k :: |diagnostics| <= k < |more| ==> NamesStored(before, more[k])
    ensures MeetingsReported(after, more) && ReportsTrue(after, more)
  {
    hide FirstMet;
    SameMeetings(before, after);
    forall j | 0 <= j < |after| ensures MeetingReported(after, more, j) {
      assert MeetingReported(before, diagnostics, j);
    }
    forall k | 0 <= k < |more| ensures NamesStored(after, more[k]) {
      assert NamesStored(before, more[k]) by {
        if k < |diagnostics| {
          assert more[k] == diagnostics[k];
        }
      }
      SameNames(before, after, more[k]);
    }
  }

  lemma SameNames(before: seq<Symbol>, after: seq<Symbol>, d: BindDiagnostic)
    requires SameDeclarations(before, after) && NamesStored(before, d)
    ensures NamesStored(after, d)
  {
    hide FirstMet;
    SameMeetings(before, after);
    if d.DuplicateSymbol? && d.overlapping {
      var j :| 0 <= j < |before| && Met(before, j) && before[j].declarationRange == d.range
        && before[FirstMet(before, j).value].declarationRange == d.previousRange;
      assert Met(after, j);
    }
  }

  lemma SameDeclarationsKeep(b: Binding, after: Binding)
    requires WellFormed(b) && SameDeclarations(b.symbols, after.symbols)
    requires after.scopes == b.scopes && |after.occurrences| == |b.occurrences| && b.diagnostics <= after.diagnostics
    requires forall k :: |b.diagnostics| <= k < |after.diagnostics| ==> NamesStored(b.symbols, after.diagnostics[k])
    ensures WellFormed(after)
  {
    hide MeetingsReported, ReportsTrue, NamesStored;
    SameReports(b.symbols, after.symbols, b.diagnostics, after.diagnostics);
  }

  /** A further symbol leaves what earlier ones met, and what reports name, as it was. */
  lemma MoreSymbols(symbols: seq<Symbol>, s: Symbol)
    ensures var after := symbols + [s];
      && (forall j :: 0 <= j < |symbols| ==> FirstMet(after, j) == FirstMet(symbols, j) && Met(after, j) == Met(symbols, j))
      && FirstMet(after, |symbols|) == FirstMatch(symbols, Overlapping(s.scope, s.Declared()))
  {
    var after := symbols + [s];
    hide FirstMatch;
    forall j | 0 <= j <= |symbols| ensures after[..j] == symbols[..j] {
    }
    assert after[..|symbols|] == symbols;
  }

  lemma MoreNames(symbols: seq<Symbol>, s: Symbol, d: BindDiagnostic)
    requires NamesStored(symbols, d)
    ensures NamesStored(symbols + [s], d)
  {
    hide FirstMet;
    MoreSymbols(symbols, s);
    var after := symbols + [s];
    if d.DuplicateSymbol? && d.overlapping {
      var j :| 0 <= j < |symbols| && Met(symbols, j) && symbols[j].declarationRange == d.range
        && symbols[FirstMet(symbols, j).value].declarationRange == d.previousRange;
      assert Met(after, j) && after[j] == symbols[j];
    } else if d.DuplicateSymbol? {
      var i :| 0 <= i < |symbols| && symbols[i].declarationRange == d.previousRange;
      assert after[i] == symbols[i];
    }
  }

  /** Storing a symbol and reporting what it met, or storing metadata, keeps the reports exact. */
  lemma MoreReports(symbols: seq<Symbol>, s: Symbol, diagnostics: seq<BindDiagnostic>, more: seq<BindDiagnostic>)
    requires MeetingsReported(symbols, diagnostics) && ReportsTrue(symbols, diagnostics)
    requires var met := FirstMatch(symbols, Overlapping(s.scope, s.Declared()));
      more == if met.None? || s.IsMetadata() then diagnostics
              else diagnostics + [DuplicateSymbol(s.declarationRange, symbols[met.value].declarationRange, true)]
    ensures MeetingsReported(symbols + [s], more) && ReportsTrue(symbols + [s], more)
  {
    hide FirstMet, FirstMatch;
    MoreSymbols(symbols, s);
    var after := symbols + [s];
    forall j | 0 <= j < |after| ensures MeetingReported(after, more, j) {
      if j < |symbols| {
        assert MeetingReported(symbols, diagnostics, j);
      } else if Met(after, j) {
        assert more[|diagnostics|] in more;
      }
    }
    forall k | 0 <= k < |more| ensures NamesStored(after, more[k]) {
      if k < |diagnostics| {
        assert NamesStored(symbols, diagnostics[k]);
        MoreNames(symbols, s, diagnostics[k]);
      } else {
        assert Met(after, |symbols|);
      }
    }
  }

  lemma NewSymbolKeeps(b: Binding, after: Binding, s: Symbol)
    requires WellFormed(b) && after.scopes == b.scopes
    requires s.id == |b.symbols| && s.scope < |b.scopes| && s.name != "" && !s.IsMetadata()
    requires after.symbols == b.symbols + [s] && after.occurrences == b.occurrences + [[]]
    requires FirstMatch(b.symbols, Exactly(s.scope, s.Declared())).None?
    requires var met := FirstMatch(b.symbols, Overlapping(s.scope, s.Declared()));
      after.diagnostics == if met.None? then b.diagnostics
        else b.diagnostics + [DuplicateSymbol(s.declarationRange, b.symbols[met.value].declarationRange, true)]
    ensures WellFormed(after)
  {
    hide MeetingsReported, ReportsTrue;
    MoreReports(b.symbols, s, b.diagnostics, after.diagnostics);
    FirstMatchIsEarliest(b.symbols, Exactly(s.scope, s.Declared()));
    assert forall i :: 0 <= i < |b.symbols| ==> !Matches(Exactly(s.scope, s.Declared()), b.symbols[i]);
  }

  /** Adding a declaration keeps the table well formed and its reports exact, and yields a symbol of that name and form. */
  lemma AddSymbolKeeps(b: Binding, scope: nat, d: Declaration, allow: bool)
    requires WellFormed(b) && scope < |b.scopes| && d.declared.name != ""
    requires !d.kind.DebugFile? && !d.kind.DebugStringLabel?
    ensures var (after, id) := AddSymbol(b, scope, d, allow);
      && WellFormed(after) && id < |after.symbols| && after.scopes == b.scopes
      && |b.symbols| <= |after.symbols| && b.diagnostics <= after.diagnostics
      && Matches(Exactly(scope, d.declared), after.symbols[id])
  {
    hide MeetingsReported, ReportsTrue, ScopesNest, FormsDistinct;
    var (after, id) := AddSymbol(b, scope, d, allow);
    var exact := FirstMatch(b.symbols, Exactly(scope, d.declared));
    if exact.Some? {
      if !allow {
        assert b.symbols[exact.value].declarationRange == after.diagnostics[|b.diagnostics|].previousRange;
      }
      SameDeclarationsKeep(b, after);
    } else {
      NewSymbolKeeps(b, after, after.symbols[|b.symbols|]);
    }
  }

  // ---- the reports are exact --------------------------------------------------------------------

  lemma FirstMetCollides(symbols: seq<Symbol>, j: nat)
    requires j < |symbols| && Met(symbols, j)
    ensures Collide(symbols, FirstMet(symbols, j).value, j)
  {
    var i := FirstMet(symbols, j).value;
    assert symbols[..j][i] == symbols[i];
    OverlapIsSharedSpelling(symbols[i].Declared(), symbols[j].Declared());
  }

  /**
   * Two colliding declarations are reported at the later one's range, beside the first that the later one
   * collides with.
   */
  lemma CollisionReported(b: Binding, i: nat, j: nat)
    requires WellFormed(b) && i < j < |b.symbols| && Collide(b.symbols, i, j)
    ensures var first := FirstMet(b.symbols, j);
      && first.Some? && first.value <= i && Collide(b.symbols, first.value, j)
      && DuplicateSymbol(b.symbols[j].declarationRange, b.symbols[first.value].declarationRange, true) in b.diagnostics
  {
    var earlier, q := b.symbols[..j], Overlapping(b.symbols[j].scope, b.symbols[j].Declared());
    OverlapIsSharedSpelling(b.symbols[i].Declared(), b.symbols[j].Declared());
    assert earlier[i] == b.symbols[i] && Matches(q, earlier[i]);
    FirstMatchIsEarliest(earlier, q);
    assert MeetingReported(b.symbols, b.diagnostics, j);
    FirstMetCollides(b.symbols, j);
  }

  /** Every reported overlap names two declarations of the table that do collide. */
  lemma ReportedCollision(b: Binding, d: BindDiagnostic) returns (i: nat, j: nat)
    requires WellFormed(b) && d in b.diagnostics && d.DuplicateSymbol? && d.overlapping
    ensures i < j < |b.symbols| && Collide(b.symbols, i, j)
    ensures b.symbols[j].declarationRange == d.range && b.symbols[i].declarationRange == d.previousRange
  {
    var k :| 0 <= k < |b.diagnostics| && b.diagnostics[k] == d;
    assert NamesStored(b.symbols, b.diagnostics[k]);
    j :| 0 <= j < |b.symbols| && Met(b.symbols, j) && b.symbols[j].declarationRange == d.range
      && b.symbols[FirstMet(b.symbols, j).value].declarationRange == d.previousRange;
    i := FirstMet(b.symbols, j).value;
    FirstMetCollides(b.symbols, j);
  }

  /** A table is disjoint exactly when it reports no overlap. */
  lemma DisjointIffUnreported(b: Binding)
    requires WellFormed(b)
    ensures SpellingsDisjoint(b.symbols) <==> forall d :: d in b.diagnostics && d.DuplicateSymbol? ==> !d.overlapping
  {
    if SpellingsDisjoint(b.symbols) {
      forall d | d in b.diagnostics && d.DuplicateSymbol? ensures !d.overlapping {
        if d.overlapping {
          var i, j := ReportedCollision(b, d);
          assert false;
        }
      }
    } else {
      var i, j :| 0 <= i < j < |b.symbols| && Collide(b.symbols, i, j);
      CollisionReported(b, i, j);
    }
  }

  /** A spelling has one owner in a scope, unless the later of two owners is itself reported as overlapping. */
  lemma OneOwnerPerSpelling(b: Binding, i: nat, j: nat, spelling: string)
    requires WellFormed(b) && i <= j < |b.symbols| && b.symbols[i].scope == b.symbols[j].scope
    requires !b.symbols[i].IsMetadata() && !b.symbols[j].IsMetadata()
    requires Spells(b.symbols[i].Declared(), spelling) && Spells(b.symbols[j].Declared(), spelling)
    requires forall d :: d in b.diagnostics && d.DuplicateSymbol? && d.overlapping ==> d.range != b.symbols[j].declarationRange
    ensures i == j
  {
    if i < j {
      assert ShareSpelling(b.symbols[i].Declared(), b.symbols[j].Declared());
      CollisionReported(b, i, j);
    }
  }
}
