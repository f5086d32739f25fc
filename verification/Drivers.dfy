/** The body and module drivers as functions of the token stream. */
module Drivers {
  import opened Common
  import opened Tokens
  import opened ConstantGrammar
  import opened SectionGrammar
  import opened SectionParser
  import opened Recovering
  import opened SourceTree

  /** What an abstract production does: consume a contiguous run, and succeed or fail. */
  datatype Outcome = Accepted(end: nat) | Rejected(diagnostic: Diagnostic, end: nat)

  /** Productions consume something when they succeed, and never take back a token. */
  predicate OutcomeFits(p: Production, pos: nat, outcome: Outcome) {
    match outcome
    case Accepted(end) => end > pos
    case Rejected(d, end) =>
      && end >= pos && !d.SectionPayload?
      && (p.LegacyDwarf? || (ExpectsSemicolon(d) && !p.InstructionTail?) ==> end > pos)
  }

  ghost predicate WellBehaved(f: (Production, seq<PtxToken>, nat) -> Outcome) {
    forall p: Production, toks: seq<PtxToken>, pos: nat :: OutcomeFits(p, pos, f(p, toks, pos))
  }

  /**
   * The item productions; only a legacy record's marker and whatever precedes a missing semicolon are sure to
   * be consumed.
   */
  type Productions = f: (Production, seq<PtxToken>, nat) -> Outcome | WellBehaved(f)
    witness (p: Production, toks: seq<PtxToken>, pos: nat) => Rejected(Malformed(pos), pos + 1)

  function Produce(f: Productions, p: Production, toks: seq<PtxToken>, start: nat, pos: nat): (r: Parse<CstItem>)
    requires start <= pos
    ensures r.pos >= pos && (r.Parsed? ==> r.pos > pos)
    ensures r.Failed? ==>
      && !r.diagnostic.SectionPayload?
      && (p.LegacyDwarf? || ExpectsSemicolon(r.diagnostic) ==> r.pos > start || p.InstructionTail?)
  {
    assert OutcomeFits(p, pos, f(p, toks, pos));
    match f(p, toks, pos)
    case Accepted(end) => Parsed(Produced(p, TokenRange(start, end)), end)
    case Rejected(d, end) => Failed(d, end)
  }

  // ---- bodies -----------------------------------------------------------------------------------

  datatype ItemParse = ItemParse(item: Parse<CstItem>, diagnostics: seq<Diagnostic>)

  datatype BodyParse = BodyParse(body: seq<CstItem>, diagnostics: seq<Diagnostic>, rightBrace: Option<nat>, pos: nat)

  /** Record a missing right brace once: a diagnostic and an inserted mark before the anchor. */
  function MissingBrace(body: seq<CstItem>, diagnostics: seq<Diagnostic>, anchor: nat): BodyParse {
    BodyParse(body + [Recovered(RecoveryNode(Inserted, Some(RBrace), None, anchor))],
              diagnostics + [Expected(anchor, RBrace)], None, anchor)
  }

  /** Whether a body goes on after recovery that stopped there. */
  predicate BodyGoesOn(stop: RecoveryStop) {
    stop.AtSemicolon? || stop.AtRightBrace? || stop.AtBodyItem?
  }

  /** The rest of a body after the items and diagnostics so far. */
  function ParseBody(f: Productions, toks: seq<PtxToken>, pos: nat, body: seq<CstItem>, diagnostics: seq<Diagnostic>,
                     depth: nat):
    (r: BodyParse)
    ensures r.pos >= pos
    decreases Remaining(toks, pos), 2
  {
    var kind := TokenAt(toks, pos).kind;
    if kind.RBrace? then BodyParse(body, diagnostics, Some(pos), pos + 1)
    else if kind.Eof? || IsFunctionOrModuleBoundary(kind) then MissingBrace(body, diagnostics, pos)
    else
      var parsed := ParseBodyItem(f, toks, pos, diagnostics, depth);
      match parsed.item
      case Parsed(item, next) => ParseBody(f, toks, next, body + [item], parsed.diagnostics, depth)
      case Failed(d, at) =>
        var recovery := Recover(toks, pos, at, d, FunctionBody);
        var more := body + AsItems(recovery.nodes);
        if BodyGoesOn(recovery.stop) then ParseBody(f, toks, recovery.pos, more, parsed.diagnostics + [d], depth)
        else MissingBrace(more, parsed.diagnostics + [d], recovery.pos)
  }

  /** One item of a body whose current token is neither a right brace, the end nor a boundary. */
  function ParseBodyItem(f: Productions, toks: seq<PtxToken>, pos: nat, diagnostics: seq<Diagnostic>, depth: nat):
    (r: ItemParse)
    ensures r.item.pos >= pos && (r.item.Parsed? ==> r.item.pos > pos)
    ensures r.item.Failed? ==>
      && r.diagnostics == diagnostics && !r.item.diagnostic.SectionPayload?
      && (TokenAt(toks, pos).kind.AtAtDwarf? || ExpectsSemicolon(r.item.diagnostic) ==> r.item.pos > pos)
    decreases Remaining(toks, pos), 1
  {
    var kind := TokenAt(toks, pos).kind;
    if kind.LBrace? then
      if depth >= MAX_NESTED_BLOCK_DEPTH then ItemParse(Failed(DepthLimit(pos), pos), diagnostics)
      else
        var inside := ParseBody(f, toks, pos + 1, [], diagnostics, depth + 1);
        ItemParse(Parsed(Block(pos, inside.body, inside.rightBrace, TokenRange(pos, inside.pos)), inside.pos), inside.diagnostics)
    else ItemParse(ParseSimpleItem(f, toks, pos), diagnostics)
  }

  /** The body items that are not blocks. */
  function ParseSimpleItem(f: Productions, toks: seq<PtxToken>, pos: nat): (r: Parse<CstItem>)
    ensures r.pos >= pos && (r.Parsed? ==> r.pos > pos)
    ensures r.Failed? ==>
      && !r.diagnostic.SectionPayload?
      && (TokenAt(toks, pos).kind.AtAtDwarf? || ExpectsSemicolon(r.diagnostic) ==> r.pos > pos)
  {
    var kind := TokenAt(toks, pos).kind;
    if IsVariableStateSpace(kind) then Produce(f, VariableDeclaration, toks, pos, pos)
    else if kind.AtAtDwarf? then Produce(f, LegacyDwarf, toks, pos, pos)
    else if kind.DotLoc? then Produce(f, Loc, toks, pos, pos)
    else if kind.DotPragma? then Produce(f, Pragma, toks, pos, pos)
    else if IsKernelResourceDirective(kind) then Failed(Malformed(pos), pos)
    else if kind.Ident? then ParseLabelled(f, toks, pos)
    else if NeedsLabel(kind) then Failed(Malformed(pos), pos)
    else Produce(f, Instruction, toks, pos, pos)
  }

  /** An identifier begins a label, labelled call metadata or an instruction. */
  function ParseLabelled(f: Productions, toks: seq<PtxToken>, pos: nat): (r: Parse<CstItem>)
    ensures r.pos > pos && (r.Failed? ==> !r.diagnostic.SectionPayload?)
  {
    if TokenAt(toks, pos + 1).kind.Colon? then
      match TokenAt(toks, pos + 2).kind
      case DotCallPrototype => Produce(f, CallPrototype, toks, pos, pos + 2)
      case DotCallTargets => Produce(f, CallTargets, toks, pos, pos + 2)
      case DotBranchTargets => Produce(f, BranchTargets, toks, pos, pos + 2)
      case _ => Parsed(Label(pos, pos + 1), pos + 2)
    else Produce(f, InstructionTail, toks, pos, pos + 1)
  }

  // ---- functions and modules --------------------------------------------------------------------

  /** A function whose qualifiers start at `start` and whose directive is current at `pos`. */
  function ParseFunction(f: Productions, toks: seq<PtxToken>, start: nat, pos: nat, diagnostics: seq<Diagnostic>):
    (r: ItemParse)
    requires start <= pos
    ensures r.item.pos > pos
    ensures r.item.Failed? ==> r.diagnostics == diagnostics && !r.item.diagnostic.SectionPayload?
  {
    if !IsFunctionDirective(TokenAt(toks, pos).kind) then ItemParse(Failed(Malformed(pos), pos + 1), diagnostics)
    else
      assert OutcomeFits(FunctionHeader, pos + 1, f(FunctionHeader, toks, pos + 1));
      match f(FunctionHeader, toks, pos + 1)
      case Rejected(d, end) => ItemParse(Failed(d, end), diagnostics)
      case Accepted(end) =>
        var kind := TokenAt(toks, end).kind;
        if kind.Semicolon? then
          if TokenAt(toks, pos).kind.DotFunc? then
            ItemParse(Parsed(Prototype(Run(start, pos), pos, end, TokenRange(start, end + 1)), end + 1), diagnostics)
          else ItemParse(Failed(Malformed(end), end + 1), diagnostics)
        else if kind.LBrace? then
          var inside := ParseBody(f, toks, end + 1, [], diagnostics, 0);
          ItemParse(Parsed(Function(Run(start, pos), pos, end, inside.body, inside.rightBrace, TokenRange(start, inside.pos)),
                           inside.pos), inside.diagnostics)
        else ItemParse(Failed(Malformed(end), end), diagnostics)
  }

  /** The end of a run of linkage qualifiers. */
  function QualifiersEnd(toks: seq<PtxToken>, pos: nat): (end: nat)
    ensures end >= pos
    decreases Remaining(toks, pos)
  {
    if QualifierAt(toks, pos) then QualifiersEnd(toks, pos + 1) else pos
  }

  /** One module item, from its qualifiers on. */
  function ParseModuleItem(f: Productions, toks: seq<PtxToken>, start: nat, diagnostics: seq<Diagnostic>): (r: ItemParse)
    ensures r.item.pos >= start && (r.item.Parsed? ==> r.item.pos > start)
    ensures r.item.Failed? ==> r.diagnostics == diagnostics && !r.item.diagnostic.SectionPayload?
  {
    var pos := QualifiersEnd(toks, start);
    var form := ClassifyModuleSource(TokenAt(toks, pos));
    if form.FunctionForm? then ParseFunction(f, toks, start, pos, diagnostics)
    else if pos == start && form.SectionForm? then
      match ParseSection(toks, pos)
      case Failed(d, at) => SectionRefusal(toks, pos); ItemParse(Failed(d, at), diagnostics)
      case Parsed(p, next) =>
        ItemParse(Parsed(Section(p.section), next), diagnostics + (if p.payloadError.Some? then [p.payloadError.value] else []))
    else ItemParse(ParseSimpleModuleItem(f, toks, start, pos, form), diagnostics)
  }

  lemma SectionRefusal(toks: seq<PtxToken>, pos: nat)
    ensures ParseSection(toks, pos).Failed? ==> !ParseSection(toks, pos).diagnostic.SectionPayload?
  {
    hide Closes, FindClose, ParseEntries;
    FindCloseSound(toks, pos + 3, pos + 3);
  }

  /** The module items that neither contain other items nor report anything beside themselves. */
  function ParseSimpleModuleItem(f: Productions, toks: seq<PtxToken>, start: nat, pos: nat, form: ModuleSourceForm):
    (r: Parse<CstItem>)
    requires start <= pos
    ensures r.pos >= pos && (r.Parsed? ==> r.pos > pos)
    ensures r.Failed? ==> !r.diagnostic.SectionPayload?
  {
    if pos == start && form.PragmaForm? then Produce(f, Pragma, toks, start, pos)
    else if pos == start && form.LegacyDwarfForm? then Produce(f, LegacyDwarf, toks, start, pos)
    else if pos == start && form.AliasForm? then Produce(f, Alias, toks, start, pos)
    else if pos == start && form.DirectiveForm? then Produce(f, ModuleDirective, toks, start, pos)
    else if form.VariableForm? then Produce(f, VariableDeclaration, toks, start, pos)
    else if TokenAt(toks, pos).kind.Ident? then
      var at := if TokenAt(toks, pos + 1).kind.Colon? then pos + 2 else pos + 1;
      Failed(Malformed(at), at)
    else Failed(Malformed(pos), pos)
  }

  datatype ModuleParse = ModuleParse(items: seq<CstItem>, diagnostics: seq<Diagnostic>, pos: nat)

  /** The rest of a module after the items and diagnostics so far. */
  function ParseItems(f: Productions, toks: seq<PtxToken>, pos: nat, items: seq<CstItem>, diagnostics: seq<Diagnostic>):
    (r: ModuleParse)
    ensures r.pos >= pos
    decreases Remaining(toks, pos)
  {
    if TokenAt(toks, pos).kind.Eof? then ModuleParse(items, diagnostics, pos)
    else
      var parsed := ParseModuleItem(f, toks, pos, diagnostics);
      match parsed.item
      case Parsed(item, next) => ParseItems(f, toks, next, items + [item], parsed.diagnostics)
      case Failed(d, at) =>
        var recovery := Recover(toks, pos, at, d, ModuleLevel);
        ParseItems(f, toks, recovery.pos, items + AsItems(recovery.nodes), parsed.diagnostics + [d])
  }
}
