/** Where recovery stops, kind by kind, and what that means for a body whose last item lacks its semicolon. */
module RecoveryBoundaries {
  import opened Common
  import opened Tokens
  import opened ConstantGrammar
  import opened SectionGrammar
  import opened Recovering
  import opened SourceTree
  import opened Drivers

  /** The kinds that recovery in a body never consumes; an opening brace only while a legacy record is recovered. */
  predicate EndsBodyRecovery(kind: TokenKind, legacyRecord: bool) {
    || kind.Eof? || kind.RBrace? || kind.AtAtDwarf? || (kind.LBrace? && legacyRecord)
    || kind.DotEntry? || kind.DotFunc? || kind.DotExtern? || kind.DotVisible? || kind.DotWeak? || kind.DotCommon?
    || kind.DotVersion? || kind.DotTarget? || kind.DotAddressSize? || kind.DotFile? || kind.DotSection?
  }

  /** The tokens that recovery between module items never consumes after the refused item's first. */
  predicate EndsModuleRecovery(token: PtxToken) {
    var kind := token.kind;
    || kind.Eof? || kind.AtAtDwarf? || (kind.DotIdent? && token.text == ".alias")
    || kind.DotVersion? || kind.DotTarget? || kind.DotAddressSize? || kind.DotFile? || kind.DotPragma? || kind.DotSection?
    || kind.DotEntry? || kind.DotFunc? || kind.DotExtern? || kind.DotVisible? || kind.DotWeak? || kind.DotCommon?
    || kind.DotReg? || kind.DotParam? || kind.DotLocal? || kind.DotShared? || kind.DotGlobal? || kind.DotConst? || kind.DotTex?
  }

  predicate EndsRecovery(context: RecoveryContext, legacyRecord: bool, token: PtxToken) {
    match context
    case FunctionBody => EndsBodyRecovery(token.kind, legacyRecord)
    case ModuleLevel => EndsModuleRecovery(token)
  }

  /** The kinds that begin a body item, so that a semicolon before them was only forgotten. */
  predicate BeginsBodyItem(kind: TokenKind) {
    || kind.LBrace? || kind.At? || kind.AtAtDwarf? || kind.Ident?
    || kind.DotReg? || kind.DotParam? || kind.DotLocal? || kind.DotShared? || kind.DotGlobal? || kind.DotConst? || kind.DotTex?
    || kind.DotLoc? || kind.DotPragma? || kind.DotCallPrototype? || kind.DotCallTargets? || kind.DotBranchTargets?
  }

  lemma EndsBodyIs(kind: TokenKind, legacyRecord: bool)
    ensures EndsBodyRecovery(kind, legacyRecord) <==>
      kind.Eof? || IsAnchor(FunctionBody, legacyRecord, PtxToken(kind, "", []))
  {
  }

  lemma EndsModuleIs(token: PtxToken)
    ensures EndsModuleRecovery(token) <==> token.kind.Eof? || IsAnchor(ModuleLevel, false, token)
  {
  }

  lemma EndsIs(context: RecoveryContext, legacyRecord: bool, token: PtxToken)
    ensures EndsRecovery(context, legacyRecord, token) <==> token.kind.Eof? || IsAnchor(context, legacyRecord, token)
  {
    hide IsFunctionOrModuleBoundary, ClassifyModuleSource, EndsModuleRecovery, EndsBodyRecovery;
    if context.FunctionBody? {
      EndsBodyIs(token.kind, legacyRecord);
    } else {
      EndsModuleIs(token);
    }
  }

  lemma BeginsIs(kind: TokenKind)
    ensures BeginsBodyItem(kind) <==> IsFunctionBodyItemStart(kind)
  {
  }

  // ---- exactly where it stops -------------------------------------------------------------------

  ghost predicate EndsAt(toks: seq<PtxToken>, first: nat, context: RecoveryContext, i: nat) {
    EndsRecovery(context, TokenAt(toks, first).kind.AtAtDwarf?, TokenAt(toks, i))
  }

  /**
   * Whether recovery consumes nothing: at the end, before a token that it must not consume, or, where a semicolon was
   * expected, before one that begins the next body item. Between module items it does consume a refused item's own first.
   */
  ghost predicate ConsumesNothing(toks: seq<PtxToken>, first: nat, current: nat, d: Diagnostic, context: RecoveryContext) {
    || TokenAt(toks, current).kind.Eof?
    || ((context.FunctionBody? || current != first) && EndsAt(toks, first, context, current))
    || (context.FunctionBody? && d == Expected(d.at, Semicolon) && BeginsBodyItem(TokenAt(toks, current).kind))
  }

  /** What recovery reports of the token that it stopped at. */
  ghost predicate StoppedAt(toks: seq<PtxToken>, first: nat, current: nat, context: RecoveryContext, r: Recovery) {
    var kind := TokenAt(toks, r.pos).kind;
    match r.stop
    case AtSemicolon =>
      if r.pos > current then TokenAt(toks, r.pos - 1).kind.Semicolon?
      else context.FunctionBody? && BeginsBodyItem(kind) && !EndsAt(toks, first, context, current)
    case AtEof => kind.Eof?
    case AtModuleItem => context.ModuleLevel? && !kind.Eof? && EndsModuleRecovery(TokenAt(toks, r.pos))
    case AtRightBrace => context.FunctionBody? && kind.RBrace?
    case AtBodyItem =>
      context.FunctionBody? && (kind.AtAtDwarf? || (kind.LBrace? && TokenAt(toks, first).kind.AtAtDwarf?))
    case AtFunctionBoundary =>
      && context.FunctionBody?
      && (|| kind.DotEntry? || kind.DotFunc? || kind.DotExtern? || kind.DotVisible? || kind.DotWeak? || kind.DotCommon?
          || kind.DotVersion? || kind.DotTarget? || kind.DotAddressSize? || kind.DotFile? || kind.DotSection?)
  }

  /**
   * Recovery, on every stream: when it consumes nothing; that otherwise it consumes the offending token and then up to the
   * first semicolon, which it takes, or the first token that it must not consume, before which it stops; and what it says
   * it stopped at.
   */
  lemma RecoveryStopsExactly(toks: seq<PtxToken>, first: nat, current: nat, d: Diagnostic, context: RecoveryContext)
    requires first <= current
    ensures var r := Recover(toks, first, current, d, context);
      && (r.pos == current <==> ConsumesNothing(toks, first, current, d, context))
      && (forall i :: current < i < r.pos ==> !EndsAt(toks, first, context, i))
      && (forall i :: current <= i < r.pos - 1 ==> !TokenAt(toks, i).kind.Semicolon?)
      && (r.pos > current ==> TokenAt(toks, r.pos - 1).kind.Semicolon? || EndsAt(toks, first, context, r.pos))
      && StoppedAt(toks, first, current, context, r)
  {
    hide IsAnchor, Recover, IsFunctionBodyItemStart, EndsRecovery, BeginsBodyItem, EndsModuleRecovery, StopAtAnchor, StoppedAt;
    var r := Recover(toks, first, current, d, context);
    var legacyRecord := TokenAt(toks, first).kind.AtAtDwarf?;
    RecoveryStays(toks, first, current, d, context);
    EndsIs(context, legacyRecord, TokenAt(toks, r.pos));
    RecoveryStopsBeforeAnchors(toks, first, current, d, context);
    forall i | current < i < r.pos ensures !EndsAt(toks, first, context, i) {
      EndsIs(context, legacyRecord, TokenAt(toks, i));
      assert Skippable(toks, i, context, legacyRecord);
    }
    StopIs(toks, first, current, context, r);
  }

  lemma RecoveryStays(toks: seq<PtxToken>, first: nat, current: nat, d: Diagnostic, context: RecoveryContext)
    requires first <= current
    ensures var r := Recover(toks, first, current, d, context);
      && (r.pos == current <==> ConsumesNothing(toks, first, current, d, context))
      && (r.pos == current && r.stop.AtSemicolon? ==>
            context.FunctionBody? && BeginsBodyItem(TokenAt(toks, current).kind) && !EndsAt(toks, first, context, current))
      && (r.pos > current && !r.stop.AtSemicolon? ==> EndsAt(toks, first, context, r.pos))
      && (!r.stop.AtEof? ==> !TokenAt(toks, r.pos).kind.Eof? || r.stop.AtSemicolon?)
  {
    hide IsAnchor, SkipFrom, IsFunctionBodyItemStart, EndsRecovery, BeginsBodyItem, StopAtAnchor;
    var legacyRecord := TokenAt(toks, first).kind.AtAtDwarf?;
    EndsIs(context, legacyRecord, TokenAt(toks, current));
    EndsIs(context, legacyRecord, TokenAt(toks, Recover(toks, first, current, d, context).pos));
    BeginsIs(TokenAt(toks, current).kind);
    AnchorStops(context, TokenAt(toks, current).kind);
    SkipStops(toks, current + 1, context, legacyRecord);
  }

  lemma AnchorStops(context: RecoveryContext, kind: TokenKind)
    ensures !StopAtAnchor(context, kind).AtSemicolon? && !StopAtAnchor(context, kind).AtEof?
  {
  }

  lemma StopIs(toks: seq<PtxToken>, first: nat, current: nat, context: RecoveryContext, r: Recovery)
    requires r.pos >= current
    requires var legacyRecord := TokenAt(toks, first).kind.AtAtDwarf?;
      && (r.pos > current && r.stop.AtSemicolon? ==> TokenAt(toks, r.pos - 1).kind.Semicolon?)
      && (r.pos == current && r.stop.AtSemicolon? ==>
            && context.FunctionBody? && BeginsBodyItem(TokenAt(toks, current).kind)
            && !EndsAt(toks, first, context, current))
      && (r.stop.AtEof? ==> TokenAt(toks, r.pos).kind.Eof?)
      && (!r.stop.AtEof? && !r.stop.AtSemicolon? ==>
            && !TokenAt(toks, r.pos).kind.Eof? && EndsAt(toks, first, context, r.pos)
            && r.stop == StopAtAnchor(context, TokenAt(toks, r.pos).kind))
    ensures StoppedAt(toks, first, current, context, r)
  {
    hide BeginsBodyItem;
  }

  /** A span of tokens kept as what it is, unless it is empty. */
  function Kept(kind: RecoveryKind, first: nat, last: nat): seq<RecoveryNode> {
    if first < last then [RecoveryNode(kind, None, Some(TokenRange(first, last)), first)] else []
  }

  /**
   * What recovery leaves in the tree follows from where it stopped: what came before the current token, then the offending
   * token and what was skipped after it, or, when nothing was consumed, the mark of the end and of a missing semicolon.
   */
  lemma RecoveryNodesExactly(toks: seq<PtxToken>, first: nat, current: nat, d: Diagnostic, context: RecoveryContext)
    requires first <= current
    ensures var r := Recover(toks, first, current, d, context);
      r.nodes == Kept(Skipped, first, current) +
        (if r.pos > current then Kept(Erroneous, current, current + 1) + Kept(Skipped, current + 1, r.pos)
         else
           (if TokenAt(toks, current).kind.Eof? then [RecoveryNode(Erroneous, None, None, current)] else [])
           + (if d == Expected(d.at, Semicolon) then [RecoveryNode(Inserted, Some(Semicolon), None, current)] else []))
  {
    hide IsAnchor, SkipFrom, IsFunctionBodyItemStart;
  }

  // ---- a forgotten semicolon --------------------------------------------------------------------

  /**
   * The last item of a body lacks only its semicolon: recovery keeps what was consumed of it, inserts one semicolon, and the
   * body closes at its own brace.
   */
  lemma SemicolonBeforeBrace(f: Productions, toks: seq<PtxToken>, pos: nat, at: nat, body: seq<CstItem>,
                             diagnostics: seq<Diagnostic>, depth: nat)
    requires !EndsBodyRecovery(TokenAt(toks, pos).kind, false) || TokenAt(toks, pos).kind.AtAtDwarf?
    requires ParseBodyItem(f, toks, pos, diagnostics, depth).item == Failed(Expected(at, Semicolon), at)
    requires TokenAt(toks, at).kind.RBrace?
    ensures ParseBody(f, toks, pos, body, diagnostics, depth)
      == BodyParse(body + [Recovered(RecoveryNode(Skipped, None, Some(TokenRange(pos, at)), pos)),
                           Recovered(RecoveryNode(Inserted, Some(Semicolon), None, at))],
                   diagnostics + [Expected(at, Semicolon)], Some(at), at + 1)
  {
    hide ParseBodyItem, Recover, IsFunctionOrModuleBoundary, EndsBodyRecovery, BeginsBodyItem, AsItems;
    var d := Expected(at, Semicolon);
    var r := Recover(toks, pos, at, d, FunctionBody);
    BodyStartIs(TokenAt(toks, pos).kind);
    BraceEnds(TokenAt(toks, at).kind, TokenAt(toks, pos).kind.AtAtDwarf?);
    RecoveryStopsExactly(toks, pos, at, d, FunctionBody);
    RecoveryNodesExactly(toks, pos, at, d, FunctionBody);
    var kept, inserted := RecoveryNode(Skipped, None, Some(TokenRange(pos, at)), pos),
      RecoveryNode(Inserted, Some(Semicolon), None, at);
    assert r.nodes == [kept, inserted];
    AsTwoItems(kept, inserted);
    var more, all := body + AsItems(r.nodes), diagnostics + [d];
    assert ParseBody(f, toks, at, more, all, depth) == BodyParse(more, all, Some(at), at + 1);
  }

  lemma BodyStartIs(kind: TokenKind)
    requires !EndsBodyRecovery(kind, false) || kind.AtAtDwarf?
    ensures !kind.RBrace? && !kind.Eof? && !IsFunctionOrModuleBoundary(kind)
  {
  }

  lemma BraceEnds(kind: TokenKind, legacyRecord: bool)
    requires kind.RBrace?
    ensures EndsBodyRecovery(kind, legacyRecord)
  {
  }

  lemma AsTwoItems(a: RecoveryNode, b: RecoveryNode)
    ensures AsItems([a, b]) == [Recovered(a), Recovered(b)]
  {
    assert [a, b][..1] == [a] && [a][..0] == [];
    assert AsItems([a]) == AsItems([]) + [Recovered(a)];
  }
}
