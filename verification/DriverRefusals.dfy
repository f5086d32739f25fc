/** Which items the drivers refuse, with which diagnostic and after how many tokens. */
module DriverRefusals {
  import opened Common
  import opened Tokens
  import opened ConstantGrammar
  import opened SectionGrammar
  import opened SectionParser
  import opened Recovering
  import opened SourceTree
  import opened Drivers
  import opened DriverTheorems
  import opened SourceKinds
  import opened DriverInversion

  /** The production that begins there refuses its tokens. */
  ghost predicate ProductionRefuses(f: Productions, toks: seq<PtxToken>, p: Production, first: nat, level: nat, d: Diagnostic,
                                    at: nat)
  {
    Begins(toks, p, first, level) && f(p, toks, ProducedFrom(toks, p, first)) == Rejected(d, at)
  }

  ghost predicate SomeProductionRefuses(f: Productions, toks: seq<PtxToken>, first: nat, level: nat, d: Diagnostic, at: nat) {
    exists p :: ProductionRefuses(f, toks, p, first, level, d, at)
  }

  // ---- body items -------------------------------------------------------------------------------

  /** A block too deep, a directive out of place, or what its production refuses. */
  ghost predicate BodyItemRefused(f: Productions, toks: seq<PtxToken>, pos: nat, depth: nat, d: Diagnostic, at: nat) {
    var kind := TokenAt(toks, pos).kind;
    || (kind.LBrace? && depth >= 256 && d == DepthLimit(pos) && at == pos)
    || ((HeaderKind(kind) || LabelledKind(kind)) && d == Malformed(pos) && at == pos)
    || SomeProductionRefuses(f, toks, pos, depth + 1, d, at)
  }

  lemma BodyItemRefusedIff(f: Productions, toks: seq<PtxToken>, pos: nat, diagnostics: seq<Diagnostic>, depth: nat,
                           d: Diagnostic, at: nat)
    ensures ParseBodyItem(f, toks, pos, diagnostics, depth).item == Failed(d, at)
      <==> BodyItemRefused(f, toks, pos, depth, d, at)
  {
    hide ParseBody, ParseSimpleItem, HeaderKind, LabelledKind, Begins;
    if TokenAt(toks, pos).kind.LBrace? {
      BraceBeginsNothing(toks, pos, depth + 1);
    } else {
      SimpleItemRefusedIff(f, toks, pos, depth + 1, d, at);
    }
  }

  lemma BraceBeginsNothing(toks: seq<PtxToken>, pos: nat, level: nat)
    requires TokenAt(toks, pos).kind.LBrace?
    ensures forall p :: !Begins(toks, p, pos, level)
    ensures !HeaderKind(TokenAt(toks, pos).kind) && !LabelledKind(TokenAt(toks, pos).kind)
  {
  }

  /** The production that a body item of this first token comes from; none for a directive out of place or a label. */
  function BodyProduction(toks: seq<PtxToken>, pos: nat): Option<Production> {
    var kind := TokenAt(toks, pos).kind;
    if SpaceKind(kind) then Some(VariableDeclaration)
    else if kind.AtAtDwarf? then Some(LegacyDwarf)
    else if kind.DotLoc? then Some(Loc)
    else if kind.DotPragma? then Some(Pragma)
    else if HeaderKind(kind) || LabelledKind(kind) || kind.LBrace? then None
    else if !kind.Ident? then Some(Instruction)
    else if !TokenAt(toks, pos + 1).kind.Colon? then Some(InstructionTail)
    else if TokenAt(toks, pos + 2).kind.DotCallPrototype? then Some(CallPrototype)
    else if TokenAt(toks, pos + 2).kind.DotCallTargets? then Some(CallTargets)
    else if TokenAt(toks, pos + 2).kind.DotBranchTargets? then Some(BranchTargets)
    else None
  }

  /** At most one production begins at a token of a body. */
  lemma OneProduction(toks: seq<PtxToken>, pos: nat, level: nat)
    requires level > 0
    ensures forall p :: Begins(toks, p, pos, level) <==> BodyProduction(toks, pos) == Some(p)
  {
  }

  lemma SimpleItemRefusedIff(f: Productions, toks: seq<PtxToken>, pos: nat, level: nat, d: Diagnostic, at: nat)
    requires level > 0 && !TokenAt(toks, pos).kind.LBrace?
    ensures ParseSimpleItem(f, toks, pos) == Failed(d, at) <==>
      var kind := TokenAt(toks, pos).kind;
      || ((HeaderKind(kind) || LabelledKind(kind)) && d == Malformed(pos) && at == pos)
      || SomeProductionRefuses(f, toks, pos, level, d, at)
  {
    hide Begins, SpaceKind, HeaderKind, LabelledKind, IsVariableStateSpace, IsKernelResourceDirective, NeedsLabel, QualifiersEnd,
      ParseLabelled;
    var kind := TokenAt(toks, pos).kind;
    OneProduction(toks, pos, level);
    SpaceKinds(kind);
    HeaderKinds(kind);
    LabelledKinds(kind);
    KindsApart(toks, pos);
    var p := BodyProduction(toks, pos);
    if kind.Ident? {
      NoSpace(kind);
      LabelledRefusedIff(f, toks, pos, level, d, at);
    } else if p.Some? && ParseSimpleItem(f, toks, pos) == Failed(d, at) {
      assert ProductionRefuses(f, toks, p.value, pos, level, d, at);
    }
  }

  lemma LabelledRefusedIff(f: Productions, toks: seq<PtxToken>, pos: nat, level: nat, d: Diagnostic, at: nat)
    requires level > 0 && TokenAt(toks, pos).kind.Ident?
    ensures ParseLabelled(f, toks, pos) == Failed(d, at) <==> SomeProductionRefuses(f, toks, pos, level, d, at)
  {
    hide Begins, SpaceKind, HeaderKind, LabelledKind, QualifiersEnd;
    OneProduction(toks, pos, level);
    KindsApart(toks, pos);
    var p := BodyProduction(toks, pos);
    NoSpace(TokenAt(toks, pos).kind);
    if p.Some? && ParseLabelled(f, toks, pos) == Failed(d, at) {
      assert ProductionRefuses(f, toks, p.value, pos, level, d, at);
    }
  }

  lemma NoSpace(kind: TokenKind)
    requires kind.Ident?
    ensures !SpaceKind(kind)
  {
  }

  /** An item out of place begins nothing, and a variable in a body has no linkage before it. */
  lemma KindsApart(toks: seq<PtxToken>, pos: nat)
    ensures var kind := TokenAt(toks, pos).kind;
      && (SpaceKind(kind) ==> QualifiersEnd(toks, pos) == pos && !HeaderKind(kind) && !LabelledKind(kind))
      && (kind.AtAtDwarf? || kind.DotLoc? || kind.DotPragma? || kind.Ident? ==> !HeaderKind(kind) && !LabelledKind(kind))
      && !(HeaderKind(kind) && LabelledKind(kind))
  {
  }

  // ---- module items -----------------------------------------------------------------------------

  /** A section is refused for its name, its opening brace, or a payload found unclosed, at that token. */
  lemma SectionRefusedIff(toks: seq<PtxToken>, pos: nat, d: Diagnostic, at: nat)
    ensures ParseSection(toks, pos) == Failed(d, at) <==>
      var name, open := TokenAt(toks, pos + 1).kind, TokenAt(toks, pos + 2).kind;
      if !name.Ident? && !name.DotIdent? then d == Malformed(pos + 1) && at == pos + 2
      else if !open.LBrace? then d == Expected(pos + 2, LBrace) && at == pos + 2
      else Unclosed(toks, pos + 3, at) && d == Expected(at, RBrace)
  {
    hide Unclosed, Closes, StaysInside, FindClose, ParseEntries, Run;
    var found := FindClose(toks, pos + 3, pos + 3);
    FindCloseSound(toks, pos + 3, pos + 3);
    if found.Parsed? {
      ClosedOnce(toks, pos + 3, found.value, at);
    } else {
      ClosedOnce(toks, pos + 3, at, found.pos);
    }
  }

  /** A function is refused for its header, for ending an entry's header like a prototype, or for ending it otherwise. */
  ghost predicate FunctionRefused(f: Productions, toks: seq<PtxToken>, pos: nat, d: Diagnostic, at: nat) {
    match f(FunctionHeader, toks, pos + 1)
    case Rejected(r, end) => d == r && at == end
    case Accepted(end) =>
      var kind := TokenAt(toks, end).kind;
      && d == Malformed(end)
      && if kind.Semicolon? then TokenAt(toks, pos).kind.DotEntry? && at == end + 1 else !kind.LBrace? && at == end
  }

  lemma FunctionRefusedIff(f: Productions, toks: seq<PtxToken>, start: nat, pos: nat, diagnostics: seq<Diagnostic>,
                           d: Diagnostic, at: nat)
    requires start <= pos
    ensures ParseFunction(f, toks, start, pos, diagnostics).item == Failed(d, at) <==>
      if TokenAt(toks, pos).kind.DotEntry? || TokenAt(toks, pos).kind.DotFunc? then FunctionRefused(f, toks, pos, d, at)
      else d == Malformed(pos) && at == pos + 1
  {
    hide ParseBody, Run;
    assert OutcomeFits(FunctionHeader, pos + 1, f(FunctionHeader, toks, pos + 1));
  }

  /** The production that a module item comes from, its linkage ending before `pos`; none for functions and sections. */
  function ModuleProduction(toks: seq<PtxToken>, start: nat, pos: nat): Option<Production> {
    var kind := TokenAt(toks, pos).kind;
    if SpaceKind(kind) then Some(VariableDeclaration)
    else if start != pos then None
    else if kind.AtAtDwarf? then Some(LegacyDwarf)
    else if kind.DotPragma? then Some(Pragma)
    else if DirectiveKind(kind) then Some(ModuleDirective)
    else if kind.DotIdent? && TokenAt(toks, pos).text == ".alias" then Some(Alias)
    else None
  }

  /** Refused as a function or section, by its production, or because nothing can begin there. */
  ghost predicate ModuleItemRefused(f: Productions, toks: seq<PtxToken>, start: nat, d: Diagnostic, at: nat) {
    var pos := QualifiersEnd(toks, start);
    var kind := TokenAt(toks, pos).kind;
    if kind.DotEntry? || kind.DotFunc? then FunctionRefused(f, toks, pos, d, at)
    else if kind.DotSection? && pos == start then ParseSection(toks, pos) == Failed(d, at)
    else
      match ModuleProduction(toks, start, pos)
      case Some(p) => f(p, toks, pos) == Rejected(d, at)
      case None =>
        && d == Malformed(at)
        && at == (if !kind.Ident? then pos else if TokenAt(toks, pos + 1).kind.Colon? then pos + 2 else pos + 1)
  }

  lemma ModuleItemRefusedIff(f: Productions, toks: seq<PtxToken>, start: nat, diagnostics: seq<Diagnostic>, d: Diagnostic,
                             at: nat)
    ensures ParseModuleItem(f, toks, start, diagnostics).item == Failed(d, at)
      <==> ModuleItemRefused(f, toks, start, d, at)
  {
    hide ParseFunction, ParseSection, FunctionRefused, IsModuleDirective, IsFunctionQualifier, IsVariableStateSpace,
      SpaceKind, DirectiveKind, LinkageKind;
    var pos := QualifiersEnd(toks, start);
    var kind := TokenAt(toks, pos).kind;
    DirectiveKinds(kind);
    SpaceKinds(kind);
    LinkageKinds(kind);
    QualifiersAre(toks, start);
    ModuleKindsApart(kind);
    if kind.DotEntry? || kind.DotFunc? {
      FunctionRefusedIff(f, toks, start, pos, diagnostics, d, at);
    }
  }

  // ---- what follows a refusal -------------------------------------------------------------------

  /** A refused body item is reported with its own diagnostic, and the body goes on, or is missed its brace, after it. */
  lemma AfterRefusedBodyItem(f: Productions, toks: seq<PtxToken>, pos: nat, body: seq<CstItem>, diagnostics: seq<Diagnostic>,
                             depth: nat, d: Diagnostic, at: nat)
    requires BodyItemRefused(f, toks, pos, depth, d, at) && !EndsItems(TokenAt(toks, pos).kind, depth + 1)
    ensures var r := Recover(toks, pos, at, d, FunctionBody);
      var more, all := body + AsItems(r.nodes), diagnostics + [d];
      && r.pos > pos
      && ParseBody(f, toks, pos, body, diagnostics, depth) == ParseBody(f, toks, r.pos, more, all, depth)
  {
    hide ParseBodyItem, BodyItemRefused, Recover, IsFunctionOrModuleBoundary, EndsItems, AsItems;
    BodyItemRefusedIff(f, toks, pos, diagnostics, depth, d, at);
    EndsItemsIs(TokenAt(toks, pos).kind);
    BodyRecoveryAdvances(f, toks, pos, diagnostics, depth);
    BodyRecoveryStops(toks, pos, at, d);
    var r := Recover(toks, pos, at, d, FunctionBody);
    if !BodyGoesOn(r.stop) {
      NoBraceThere(TokenAt(toks, r.pos).kind);
      assert ParseBody(f, toks, r.pos, body + AsItems(r.nodes), diagnostics + [d], depth)
        == MissingBrace(body + AsItems(r.nodes), diagnostics + [d], r.pos);
    }
  }

  lemma NoBraceThere(kind: TokenKind)
    requires kind.Eof? || IsFunctionOrModuleBoundary(kind)
    ensures !kind.RBrace?
  {
  }

  /** A refused module item is reported with its own diagnostic, and the module goes on after it. */
  lemma AfterRefusedModuleItem(f: Productions, toks: seq<PtxToken>, pos: nat, items: seq<CstItem>,
                               diagnostics: seq<Diagnostic>, d: Diagnostic, at: nat)
    requires ModuleItemRefused(f, toks, pos, d, at) && !TokenAt(toks, pos).kind.Eof?
    ensures at >= pos
    ensures var r := Recover(toks, pos, at, d, ModuleLevel);
      && r.pos > pos
      && ParseItems(f, toks, pos, items, diagnostics)
        == ParseItems(f, toks, r.pos, items + AsItems(r.nodes), diagnostics + [d])
  {
    hide ParseModuleItem, ModuleItemRefused, Recover, AsItems;
    ModuleItemRefusedIff(f, toks, pos, diagnostics, d, at);
    ModuleRecoveryAdvances(toks, pos, at, d);
  }
}
