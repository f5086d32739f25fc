/** Error recovery as a function of the refused item, what it guarantees, and the parser's implementation of it. */
module Recovering {
  import opened Common
  import opened Tokens
  import opened ConstantGrammar
  import opened SectionGrammar
  import opened TokenBuffer

  datatype RecoveryKind = Inserted | Skipped | Erroneous

  /** A recovery marker: a nonempty span of tokens, or a zero-width mark before the token `at`. */
  datatype RecoveryNode = RecoveryNode(kind: RecoveryKind, expectedKind: Option<TokenKind>, span: Option<TokenRange>, at: nat)

  datatype RecoveryContext = FunctionBody | ModuleLevel

  datatype RecoveryStop = AtSemicolon | AtRightBrace | AtFunctionBoundary | AtModuleItem | AtBodyItem | AtEof

  datatype Recovery = Recovery(nodes: seq<RecoveryNode>, last: Option<nat>, stop: RecoveryStop, pos: nat)

  // ---- boundaries -------------------------------------------------------------------------------

  predicate IsFunctionBoundary(kind: TokenKind) {
    kind.DotEntry? || kind.DotFunc? || IsFunctionQualifier(kind)
  }

  predicate IsFunctionOrModuleBoundary(kind: TokenKind) {
    IsFunctionBoundary(kind) || IsModuleDirective(kind) || kind.DotSection?
  }

  predicate IsFunctionBodyItemStart(kind: TokenKind) {
    || kind.LBrace? || kind.At? || kind.AtAtDwarf? || kind.Ident? || IsVariableStateSpace(kind) || kind.DotLoc?
    || kind.DotPragma? || kind.DotCallPrototype? || kind.DotCallTargets? || kind.DotBranchTargets?
  }

  /** Whether recovery must stop before this token; a legacy record also stops before a block. */
  predicate IsAnchor(context: RecoveryContext, legacyRecord: bool, token: PtxToken) {
    match context
    case FunctionBody =>
      || token.kind.RBrace? || token.kind.AtAtDwarf? || (legacyRecord && token.kind.LBrace?)
      || IsFunctionOrModuleBoundary(token.kind)
    case ModuleLevel => !ClassifyModuleSource(token).Unsupported?
  }

  function StopAtAnchor(context: RecoveryContext, kind: TokenKind): RecoveryStop {
    if context.ModuleLevel? then AtModuleItem
    else if kind.RBrace? then AtRightBrace
    else if kind.AtAtDwarf? || kind.LBrace? then AtBodyItem
    else AtFunctionBoundary
  }

  predicate ExpectsSemicolon(d: Diagnostic) {
    d.ExpectedKind() == Some(Semicolon)
  }

  // ---- recovery as a function -------------------------------------------------------------------

  function SpanNode(kind: RecoveryKind, begin: nat, end: nat): seq<RecoveryNode> {
    if begin >= end then [] else [RecoveryNode(kind, None, Some(TokenRange(begin, end)), begin)]
  }

  function MissingSemicolon(d: Diagnostic, at: nat): seq<RecoveryNode> {
    if ExpectsSemicolon(d) then [RecoveryNode(Inserted, Some(Semicolon), None, at)] else []
  }

  function LastOf(begin: nat, end: nat): Option<nat> {
    if begin >= end then None else Some(end - 1)
  }

  /** Where skipping from `pos` ends, and whether it consumed a semicolon last. */
  function SkipFrom(toks: seq<PtxToken>, pos: nat, context: RecoveryContext, legacyRecord: bool): (r: (nat, bool))
    ensures r.0 >= pos && (r.1 ==> r.0 > pos)
    decreases Remaining(toks, pos)
  {
    var token := TokenAt(toks, pos);
    if token.kind.Eof? || IsAnchor(context, legacyRecord, token) then (pos, false)
    else if token.kind.Semicolon? then (pos + 1, true)
    else SkipFrom(toks, pos + 1, context, legacyRecord)
  }

  /** Recover an item that began at `first` and was refused with `diagnostic` when `current` was the current token. */
  function Recover(toks: seq<PtxToken>, first: nat, current: nat, diagnostic: Diagnostic, context: RecoveryContext):
    (r: Recovery)
    requires first <= current
    ensures r.pos >= current
    ensures Advances(toks, first, current, diagnostic, context) ==> r.pos > first
  {
    var legacyRecord := TokenAt(toks, first).kind.AtAtDwarf?;
    var token := TokenAt(toks, current);
    var skipped := SpanNode(Skipped, first, current);
    if token.kind.Eof? then
      Recovery(skipped + [RecoveryNode(Erroneous, None, None, current)] + MissingSemicolon(diagnostic, current),
               LastOf(first, current), AtEof, current)
    else if (context.FunctionBody? || current != first) && IsAnchor(context, legacyRecord, token) then
      Recovery(skipped + MissingSemicolon(diagnostic, current), LastOf(first, current), StopAtAnchor(context, token.kind), current)
    else if context.FunctionBody? && ExpectsSemicolon(diagnostic) && IsFunctionBodyItemStart(token.kind) then
      Recovery(skipped + MissingSemicolon(diagnostic, current), LastOf(first, current), AtSemicolon, current)
    else PastOffending(toks, skipped, current, context, legacyRecord)
  }

  /** Recovery that consumes the offending token `current` and skips what follows it. */
  function PastOffending(toks: seq<PtxToken>, skipped: seq<RecoveryNode>, current: nat, context: RecoveryContext,
                         legacyRecord: bool): (r: Recovery)
    ensures r.pos > current
  {
    var found := skipped + SpanNode(Erroneous, current, current + 1);
    if TokenAt(toks, current).kind.Semicolon? then Recovery(found, Some(current), AtSemicolon, current + 1)
    else
      var (end, terminated) := SkipFrom(toks, current + 1, context, legacyRecord);
      Recovery(found + SpanNode(Skipped, current + 1, end), Some(end - 1),
               if terminated then AtSemicolon
               else if TokenAt(toks, end).kind.Eof? then AtEof
               else StopAtAnchor(context, TokenAt(toks, end).kind),
               end)
  }

  /** What makes recovery advance past the item's first token. */
  predicate Advances(toks: seq<PtxToken>, first: nat, current: nat, diagnostic: Diagnostic, context: RecoveryContext) {
    || current > first
    || (&& !TokenAt(toks, first).kind.Eof?
        && (context.FunctionBody? ==>
              !ExpectsSemicolon(diagnostic)
              && !IsAnchor(FunctionBody, TokenAt(toks, first).kind.AtAtDwarf?, TokenAt(toks, first))))
  }

  // ---- what recovery guarantees -----------------------------------------------------------------

  /** The nodes' spans are consecutive, nonempty and cover exactly the tokens from `from` up to `limit`. */
  ghost predicate NodesTile(nodes: seq<RecoveryNode>, from: nat, limit: nat) {
    if nodes == [] then from == limit
    else
      var n := |nodes| - 1;
      match nodes[n].span
      case None => NodesTile(nodes[..n], from, limit)
      case Some(span) => span.first < span.last == limit && NodesTile(nodes[..n], from, span.first)
  }

  function InsertedNodes(nodes: seq<RecoveryNode>): nat {
    if nodes == [] then 0 else InsertedNodes(nodes[..|nodes| - 1]) + (if nodes[|nodes| - 1].kind.Inserted? then 1 else 0)
  }

  lemma NodesAppend(nodes: seq<RecoveryNode>, node: RecoveryNode, from: nat, mid: nat, limit: nat)
    requires NodesTile(nodes, from, mid)
    requires match node.span case None => mid == limit case Some(span) => span == TokenRange(mid, limit) && mid < limit
    ensures NodesTile(nodes + [node], from, limit)
    ensures InsertedNodes(nodes + [node]) == InsertedNodes(nodes) + (if node.kind.Inserted? then 1 else 0)
  {
    assert (nodes + [node])[..|nodes|] == nodes;
  }

  lemma NodesAppendSpan(nodes: seq<RecoveryNode>, kind: RecoveryKind, from: nat, mid: nat, limit: nat)
    requires NodesTile(nodes, from, mid) && mid <= limit && !kind.Inserted?
    ensures NodesTile(nodes + SpanNode(kind, mid, limit), from, limit)
    ensures InsertedNodes(nodes + SpanNode(kind, mid, limit)) == InsertedNodes(nodes)
  {
    if mid < limit {
      NodesAppend(nodes, RecoveryNode(kind, None, Some(TokenRange(mid, limit)), mid), from, mid, limit);
    } else {
      assert nodes + SpanNode(kind, mid, limit) == nodes;
    }
  }

  lemma NodesAppendMissing(nodes: seq<RecoveryNode>, d: Diagnostic, from: nat, limit: nat)
    requires NodesTile(nodes, from, limit)
    ensures NodesTile(nodes + MissingSemicolon(d, limit), from, limit)
    ensures InsertedNodes(nodes + MissingSemicolon(d, limit)) == InsertedNodes(nodes) + (if ExpectsSemicolon(d) then 1 else 0)
  {
    if ExpectsSemicolon(d) {
      NodesAppend(nodes, RecoveryNode(Inserted, Some(Semicolon), None, limit), from, limit, limit);
    } else {
      assert nodes + MissingSemicolon(d, limit) == nodes;
    }
  }

  /** Recovery keeps every token once, in order, and inserts a missing semicolon exactly when it consumes nothing. */
  lemma RecoveryTiles(toks: seq<PtxToken>, first: nat, current: nat, diagnostic: Diagnostic, context: RecoveryContext)
    requires first <= current
    ensures var r := Recover(toks, first, current, diagnostic, context);
      && NodesTile(r.nodes, first, r.pos)
      && r.last == (if first < r.pos then Some(r.pos - 1) else None)
      && InsertedNodes(r.nodes) == (if ExpectsSemicolon(diagnostic) && r.pos == current then 1 else 0)
      && (Advances(toks, first, current, diagnostic, context) || TokenAt(toks, current).kind.Eof? ==> r.nodes != [])
  {
    hide NodesTile, InsertedNodes, SkipFrom, IsAnchor, IsFunctionBodyItemStart, SpanNode, MissingSemicolon;
    var (end, _) := SkipFrom(toks, current + 1, context, TokenAt(toks, first).kind.AtAtDwarf?);
    KeptBefore(first, current, diagnostic);
    KeptAround(first, current, end);
    SomeNode(Skipped, first, current, diagnostic);
    SomeNode(Erroneous, current, current + 1, diagnostic);
    SomeNode(Skipped, current, current, diagnostic);
  }

  /** The node lists that recovery builds without consuming anything. */
  lemma KeptBefore(first: nat, current: nat, d: Diagnostic)
    requires first <= current
    ensures var skipped := SpanNode(Skipped, first, current);
      var missing := MissingSemicolon(d, current);
      var eof := [RecoveryNode(Erroneous, None, None, current)];
      var count := if ExpectsSemicolon(d) then 1 else 0;
      && NodesTile(skipped, first, current) && InsertedNodes(skipped) == 0
      && NodesTile(skipped + missing, first, current) && InsertedNodes(skipped + missing) == count
      && NodesTile(skipped + eof + missing, first, current) && InsertedNodes(skipped + eof + missing) == count
  {
    hide NodesTile, InsertedNodes, SpanNode, MissingSemicolon;
    var skipped := SpanNode(Skipped, first, current);
    NodesOfNothing(first);
    NodesAppendSpan([], Skipped, first, first, current);
    assert [] + skipped == skipped;
    NodesAppendMissing(skipped, d, first, current);
    var eof := RecoveryNode(Erroneous, None, None, current);
    NodesAppend(skipped, eof, first, current, current);
    NodesAppendMissing(skipped + [eof], d, first, current);
  }

  /** The node lists that recovery builds around the tokens it consumes. */
  lemma KeptAround(first: nat, current: nat, end: nat)
    requires first <= current < end
    ensures var skipped := SpanNode(Skipped, first, current);
      var found := skipped + SpanNode(Erroneous, current, current + 1);
      var all := found + SpanNode(Skipped, current + 1, end);
      && NodesTile(found, first, current + 1) && InsertedNodes(found) == 0
      && NodesTile(all, first, end) && InsertedNodes(all) == 0
  {
    hide NodesTile, InsertedNodes, SpanNode;
    var skipped := SpanNode(Skipped, first, current);
    KeptBefore(first, current, Malformed(current));
    NodesAppendSpan(skipped, Erroneous, first, current, current + 1);
    NodesAppendSpan(skipped + SpanNode(Erroneous, current, current + 1), Skipped, first, current + 1, end);
  }

  lemma SomeNode(kind: RecoveryKind, begin: nat, end: nat, d: Diagnostic)
    ensures SpanNode(kind, begin, end) == [] <==> begin >= end
    ensures MissingSemicolon(d, begin) == [] <==> !ExpectsSemicolon(d)
  {
  }

  /** What a node may be: a skipped run on either side, the offending token, the end's mark, or a missing semicolon. */
  predicate IsMark(toks: seq<PtxToken>, first: nat, current: nat, diagnostic: Diagnostic, pos: nat, node: RecoveryNode) {
    match node.span
    case Some(span) =>
      && node.at == span.first < span.last && node.expectedKind.None?
      && (if node.kind.Erroneous? then span == TokenRange(current, current + 1)
          else node.kind.Skipped? && (span == TokenRange(first, current) || span == TokenRange(current + 1, pos)))
    case None =>
      && node.at == current == pos
      && (if node.kind.Erroneous? then TokenAt(toks, current).kind.Eof? && node.expectedKind.None?
          else node.kind.Inserted? && node.expectedKind == Some(Semicolon) && ExpectsSemicolon(diagnostic))
  }

  ghost predicate AllMarks(toks: seq<PtxToken>, first: nat, current: nat, diagnostic: Diagnostic, pos: nat, nodes: seq<RecoveryNode>) {
    forall i :: 0 <= i < |nodes| ==> IsMark(toks, first, current, diagnostic, pos, nodes[i])
  }

  lemma MarksAppend(toks: seq<PtxToken>, first: nat, current: nat, d: Diagnostic, pos: nat, a: seq<RecoveryNode>, b: seq<RecoveryNode>)
    requires AllMarks(toks, first, current, d, pos, a) && AllMarks(toks, first, current, d, pos, b)
    ensures AllMarks(toks, first, current, d, pos, a + b)
  {
    hide IsMark;
  }

  lemma SpanMarks(toks: seq<PtxToken>, first: nat, current: nat, d: Diagnostic, pos: nat)
    ensures AllMarks(toks, first, current, d, pos, SpanNode(Skipped, first, current))
    ensures AllMarks(toks, first, current, d, pos, SpanNode(Erroneous, current, current + 1))
    ensures AllMarks(toks, first, current, d, pos, SpanNode(Skipped, current + 1, pos))
  {
  }

  lemma ZeroWidthMarks(toks: seq<PtxToken>, first: nat, current: nat, d: Diagnostic)
    ensures AllMarks(toks, first, current, d, current, MissingSemicolon(d, current))
    ensures TokenAt(toks, current).kind.Eof? ==>
      AllMarks(toks, first, current, d, current, [RecoveryNode(Erroneous, None, None, current)])
  {
  }

  /** Recovery marks the tokens before the offending one, that one, and those skipped after it, each as what it is. */
  lemma RecoveryMarks(toks: seq<PtxToken>, first: nat, current: nat, diagnostic: Diagnostic, context: RecoveryContext)
    requires first <= current
    ensures var r := Recover(toks, first, current, diagnostic, context);
      AllMarks(toks, first, current, diagnostic, r.pos, r.nodes)
  {
    hide IsAnchor, IsFunctionBodyItemStart, SkipFrom, SpanNode, MissingSemicolon, AllMarks;
    var r := Recover(toks, first, current, diagnostic, context);
    var skipped, missing := SpanNode(Skipped, first, current), MissingSemicolon(diagnostic, current);
    SpanMarks(toks, first, current, diagnostic, r.pos);
    ZeroWidthMarks(toks, first, current, diagnostic);
    if r.pos == current {
      var eof := [RecoveryNode(Erroneous, None, None, current)];
      MarksAppend(toks, first, current, diagnostic, current, skipped, missing);
      if TokenAt(toks, current).kind.Eof? {
        MarksAppend(toks, first, current, diagnostic, current, skipped, eof);
        MarksAppend(toks, first, current, diagnostic, current, skipped + eof, missing);
      }
    } else {
      var error := SpanNode(Erroneous, current, current + 1);
      MarksAppend(toks, first, current, diagnostic, r.pos, skipped, error);
      MarksAppend(toks, first, current, diagnostic, r.pos, skipped + error, SpanNode(Skipped, current + 1, r.pos));
    }
  }

  lemma NodesOfNothing(from: nat)
    ensures NodesTile([], from, from) && InsertedNodes([]) == 0
  {
  }

  /** A token that skipping may consume. */
  ghost predicate Skippable(toks: seq<PtxToken>, i: nat, context: RecoveryContext, legacyRecord: bool) {
    !TokenAt(toks, i).kind.Eof? && !IsAnchor(context, legacyRecord, TokenAt(toks, i))
  }

  /** Skipping consumes no anchor and no end token, at most one semicolon, and stops for exactly one of these. */
  lemma {:induction false} SkipStops(toks: seq<PtxToken>, pos: nat, context: RecoveryContext, legacyRecord: bool)
    ensures var (end, terminated) := SkipFrom(toks, pos, context, legacyRecord);
      && (forall i :: pos <= i < end ==> Skippable(toks, i, context, legacyRecord))
      && (forall i :: pos <= i < end ==> (TokenAt(toks, i).kind.Semicolon? <==> terminated && i == end - 1))
      && (!terminated ==> !Skippable(toks, end, context, legacyRecord))
    decreases Remaining(toks, pos)
  {
    hide IsAnchor;
    var token := TokenAt(toks, pos);
    if !token.kind.Eof? && !IsAnchor(context, legacyRecord, token) && !token.kind.Semicolon? {
      SkipStops(toks, pos + 1, context, legacyRecord);
    }
  }

  /**
   * From its current token on, recovery consumes no anchor of its context and no end token; only at module level may the
   * item's own first token, the one refused, be such an anchor. It consumes nothing beyond a semicolon.
   */
  lemma RecoveryStopsBeforeAnchors(toks: seq<PtxToken>, first: nat, current: nat, diagnostic: Diagnostic,
                                   context: RecoveryContext)
    requires first <= current
    ensures var r := Recover(toks, first, current, diagnostic, context);
      var legacyRecord := TokenAt(toks, first).kind.AtAtDwarf?;
      && (forall i :: current <= i < r.pos && !(context.ModuleLevel? && i == first) ==> Skippable(toks, i, context, legacyRecord))
      && (forall i :: current <= i < r.pos ==>
            !TokenAt(toks, i).kind.Eof? && (TokenAt(toks, i).kind.Semicolon? ==> i == r.pos - 1))
      && (r.pos > current && r.stop.AtSemicolon? ==> TokenAt(toks, r.pos - 1).kind.Semicolon?)
      && (r.pos == current && r.stop.AtSemicolon? ==>
            ExpectsSemicolon(diagnostic) && IsFunctionBodyItemStart(TokenAt(toks, current).kind))
      && (r.stop.AtEof? ==> TokenAt(toks, r.pos).kind.Eof?)
      && (!r.stop.AtEof? && !r.stop.AtSemicolon? ==>
            && IsAnchor(context, legacyRecord, TokenAt(toks, r.pos)) && r.stop == StopAtAnchor(context, TokenAt(toks, r.pos).kind))
  {
    hide IsAnchor, SkipFrom, IsFunctionBodyItemStart;
    var r := Recover(toks, first, current, diagnostic, context);
    var legacyRecord := TokenAt(toks, first).kind.AtAtDwarf?;
    SkipStops(toks, current + 1, context, TokenAt(toks, first).kind.AtAtDwarf?);
    forall i | current <= i < r.pos
      ensures !TokenAt(toks, i).kind.Eof? && (TokenAt(toks, i).kind.Semicolon? ==> i == r.pos - 1)
    {
      if i > current {
        assert Skippable(toks, i, context, legacyRecord);
      }
    }
  }

  // ---- the parser's recovery --------------------------------------------------------------------

  /** Skip up to an anchor or the end of input, or through a semicolon. */
  method Skip(parser: PtxCstParser, context: RecoveryContext, legacyRecord: bool) returns (terminated: bool)
    requires parser.Valid()
    modifies parser, parser.lexer
    ensures parser.Valid()
    ensures (parser.Position(), terminated) == SkipFrom(parser.stream, old(parser.Position()), context, legacyRecord)
  {
    hide PtxCstParser.Valid, PtxCstParser.Position, IsAnchor;
    var token := parser.PeekToken();
    while !token.kind.Eof? && !IsAnchor(context, legacyRecord, token)
      invariant parser.Valid() && token == TokenAt(parser.stream, parser.Position())
      invariant SkipFrom(parser.stream, parser.Position(), context, legacyRecord)
        == SkipFrom(parser.stream, old(parser.Position()), context, legacyRecord)
      decreases Remaining(parser.stream, parser.Position())
    {
      var _ := parser.Consume();
      if token.kind.Semicolon? {
        return true;
      }
      token := parser.PeekToken();
    }
    return false;
  }

  /** Equals `Recover`, and leaves the parser at the position recovery stopped at. */
  method RecoverItem(parser: PtxCstParser, first: nat, diagnostic: Diagnostic, context: RecoveryContext) returns (r: Recovery)
    requires parser.Valid() && first <= parser.Position()
    modifies parser, parser.lexer
    ensures parser.Valid() && parser.Position() == r.pos
    ensures r == Recover(parser.stream, first, old(parser.Position()), diagnostic, context)
  {
    hide PtxCstParser.Valid, PtxCstParser.Position, PtxCstParser.Token, IsAnchor, IsFunctionBodyItemStart, SkipFrom,
      SpanNode, MissingSemicolon, LastOf, StopAtAnchor, ExpectsSemicolon, PastOffending;
    var current := parser.Peek();
    var token := parser.PeekToken();
    parser.Buffers(first);
    var legacyRecord := parser.Token(first).kind.AtAtDwarf?;
    var nodes := SpanNode(Skipped, first, current);
    if token.kind.Eof? {
      return Recovery(nodes + [RecoveryNode(Erroneous, None, None, current)] + MissingSemicolon(diagnostic, current),
                      LastOf(first, current), AtEof, current);
    }
    if (context.FunctionBody? || current != first) && IsAnchor(context, legacyRecord, token) {
      return Recovery(nodes + MissingSemicolon(diagnostic, current), LastOf(first, current),
                      StopAtAnchor(context, token.kind), current);
    }
    if context.FunctionBody? && ExpectsSemicolon(diagnostic) && IsFunctionBodyItemStart(token.kind) {
      return Recovery(nodes + MissingSemicolon(diagnostic, current), LastOf(first, current), AtSemicolon, current);
    }
    r := ConsumeOffending(parser, nodes, context, legacyRecord);
  }

  /** Equals `PastOffending` at the current token. */
  method ConsumeOffending(parser: PtxCstParser, skipped: seq<RecoveryNode>, context: RecoveryContext, legacyRecord: bool)
    returns (r: Recovery)
    requires parser.Valid()
    modifies parser, parser.lexer
    ensures parser.Valid() && parser.Position() == r.pos
    ensures r == PastOffending(parser.stream, skipped, old(parser.Position()), context, legacyRecord)
  {
    hide PtxCstParser.Valid, PtxCstParser.Position, IsAnchor, SkipFrom, SpanNode, StopAtAnchor;
    var token := parser.PeekToken();
    var error := parser.Consume();
    var nodes := skipped + SpanNode(Erroneous, error, error + 1);
    if token.kind.Semicolon? {
      return Recovery(nodes, Some(error), AtSemicolon, error + 1);
    }
    var terminated := Skip(parser, context, legacyRecord);
    var end := parser.Peek();
    nodes := nodes + SpanNode(Skipped, error + 1, end);
    if terminated {
      return Recovery(nodes, Some(end - 1), AtSemicolon, end);
    }
    var kind := parser.PeekKind();
    return Recovery(nodes, Some(end - 1), if kind.Eof? then AtEof else StopAtAnchor(context, kind), end);
  }
}
