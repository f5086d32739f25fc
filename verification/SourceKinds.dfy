/** The groups of token kinds that source forms begin with, listed kind by kind beside the parser's classifications. */
module SourceKinds {
  import opened Tokens
  import opened SectionGrammar
  import opened Recovering
  import opened SourceTree

  predicate SpaceKind(kind: TokenKind) {
    kind.DotConst? || kind.DotGlobal? || kind.DotLocal? || kind.DotParam? || kind.DotReg? || kind.DotShared? || kind.DotTex?
  }

  predicate LinkageKind(kind: TokenKind) {
    kind.DotCommon? || kind.DotExtern? || kind.DotVisible? || kind.DotWeak?
  }

  predicate DirectiveKind(kind: TokenKind) {
    kind.DotAddressSize? || kind.DotFile? || kind.DotTarget? || kind.DotVersion?
  }

  predicate LabelledKind(kind: TokenKind) {
    kind.DotBranchTargets? || kind.DotCallPrototype? || kind.DotCallTargets?
  }

  predicate HeaderKind(kind: TokenKind) {
    || kind.DotExplicitcluster? || kind.DotMaxclusterrank? || kind.DotMaxnctapersm? || kind.DotMaxnreg? || kind.DotMaxntid?
    || kind.DotMinnctapersm? || kind.DotReqnctapercluster? || kind.DotReqntid?
  }

  /** The kinds before which a body ends even without its brace. */
  predicate AfterBodyKind(kind: TokenKind) {
    kind.DotEntry? || kind.DotFunc? || kind.DotSection? || LinkageKind(kind) || DirectiveKind(kind)
  }

  lemma SpaceKinds(kind: TokenKind)
    ensures IsVariableStateSpace(kind) <==> SpaceKind(kind)
  {
  }

  lemma LinkageKinds(kind: TokenKind)
    ensures IsFunctionQualifier(kind) <==> LinkageKind(kind)
  {
  }

  lemma DirectiveKinds(kind: TokenKind)
    ensures IsModuleDirective(kind) <==> DirectiveKind(kind)
    ensures IsFunctionDirective(kind) <==> kind.DotEntry? || kind.DotFunc?
  {
  }

  lemma LabelledKinds(kind: TokenKind)
    ensures NeedsLabel(kind) <==> LabelledKind(kind)
  {
  }

  lemma HeaderKinds(kind: TokenKind)
    ensures IsKernelResourceDirective(kind) <==> HeaderKind(kind)
  {
  }

  lemma AfterBodyKinds(kind: TokenKind)
    ensures IsFunctionOrModuleBoundary(kind) <==> AfterBodyKind(kind)
  {
  }

  /** What ends a section that is not closed: any module start but an alias, which may stand in a payload. */
  lemma SectionEndKinds(token: PtxToken)
    ensures IsSectionRecoveryBoundary(token) <==>
      var kind := token.kind;
      || kind.DotEntry? || kind.DotFunc? || kind.DotSection? || kind.DotPragma? || kind.AtAtDwarf?
      || LinkageKind(kind) || DirectiveKind(kind) || SpaceKind(kind)
  {
    hide SpaceKind, LinkageKind, DirectiveKind, IsVariableStateSpace, IsFunctionQualifier, IsModuleDirective;
    SpaceKinds(token.kind);
    LinkageKinds(token.kind);
    DirectiveKinds(token.kind);
    if token.kind.DotIdent? {
      AliasApart(token.kind);
    }
  }

  lemma AliasApart(kind: TokenKind)
    requires kind.DotIdent?
    ensures !SpaceKind(kind) && !LinkageKind(kind) && !DirectiveKind(kind)
  {
  }

  /** No kind begins module items of two forms. */
  lemma ModuleKindsApart(kind: TokenKind)
    ensures kind.DotEntry? || kind.DotFunc? || kind.DotSection? || kind.AtAtDwarf? || kind.DotPragma? || kind.DotIdent? ==>
      !SpaceKind(kind) && !DirectiveKind(kind) && !LinkageKind(kind)
    ensures !(SpaceKind(kind) && DirectiveKind(kind)) && !(LinkageKind(kind) && (SpaceKind(kind) || DirectiveKind(kind)))
  {
  }

  /** What stands where an item begins, for each production that an item may come from. */
  predicate Begins(toks: seq<PtxToken>, p: Production, first: nat, level: nat) {
    var kind, next := TokenAt(toks, first).kind, TokenAt(toks, first + 1).kind;
    match p
    case VariableDeclaration => SpaceKind(kind) || (LinkageKind(kind) && level == 0)
    case LegacyDwarf => kind.AtAtDwarf?
    case Loc => kind.DotLoc? && level > 0
    case Pragma => kind.DotPragma?
    case CallPrototype => kind.Ident? && next.Colon? && TokenAt(toks, first + 2).kind.DotCallPrototype? && level > 0
    case CallTargets => kind.Ident? && next.Colon? && TokenAt(toks, first + 2).kind.DotCallTargets? && level > 0
    case BranchTargets => kind.Ident? && next.Colon? && TokenAt(toks, first + 2).kind.DotBranchTargets? && level > 0
    case InstructionTail => kind.Ident? && !next.Colon? && level > 0
    case Instruction =>
      && level > 0 && !kind.LBrace? && !kind.Ident? && !kind.AtAtDwarf? && !kind.DotLoc? && !kind.DotPragma?
      && !SpaceKind(kind) && !HeaderKind(kind) && !LabelledKind(kind)
    case Alias => kind.DotIdent? && TokenAt(toks, first).text == ".alias" && level == 0
    case ModuleDirective => DirectiveKind(kind) && level == 0
    case FunctionHeader => false
  }

  lemma BeginsIntroduces(toks: seq<PtxToken>, p: Production, first: nat, level: nat)
    ensures Introduces(toks, p, first, level) <==> Begins(toks, p, first, level)
  {
    hide SpaceKind, LinkageKind, DirectiveKind, LabelledKind, HeaderKind, IsVariableStateSpace, IsFunctionQualifier,
      IsModuleDirective, NeedsLabel, IsKernelResourceDirective;
    var kind := TokenAt(toks, first).kind;
    SpaceKinds(kind);
    LinkageKinds(kind);
    DirectiveKinds(kind);
    LabelledKinds(kind);
    HeaderKinds(kind);
  }
}
