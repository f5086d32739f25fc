/** The source tree that the drivers build, and what it means that a tree accounts for every token. */
module SourceTree {
  import opened Common
  import opened Tokens
  import opened ConstantGrammar
  import opened SectionGrammar
  import opened SectionParser
  import opened Recovering

  /** Blocks may nest this deep, counted from the function's own body. */
  const MAX_NESTED_BLOCK_DEPTH := 256

  /** The item productions that the drivers choose between without looking inside them. */
  datatype Production =
    | VariableDeclaration | LegacyDwarf | Loc | Pragma
    | CallPrototype | CallTargets | BranchTargets | Instruction | InstructionTail
    | Alias | ModuleDirective | FunctionHeader

  /** An item of a module, a function body or a block. */
  datatype CstItem =
    | Produced(production: Production, span: TokenRange)
    | Label(name: nat, colon: nat)
    | Block(leftBrace: nat, body: seq<CstItem>, rightBrace: Option<nat>, span: TokenRange)
    | Prototype(qualifiers: seq<nat>, directive: nat, terminator: nat, span: TokenRange)
    | Function(qualifiers: seq<nat>, directive: nat, leftBrace: nat, body: seq<CstItem>, rightBrace: Option<nat>,
               span: TokenRange)
    | Section(section: SectionDirective)
    | Recovered(node: RecoveryNode)

  /** The tokens an item covers; a zero-width recovery mark covers none. */
  function Extent(item: CstItem): Option<TokenRange> {
    match item
    case Label(n, c) => Some(TokenRange(n, c + 1))
    case Section(s) => Some(s.span)
    case Recovered(node) => node.span
    case Produced(_, span) => Some(span)
    case Block(_, _, _, span) => Some(span)
    case Prototype(_, _, _, span) => Some(span)
    case Function(_, _, _, _, _, span) => Some(span)
  }

  /** The items are disjoint, in order, and cover exactly the tokens from `from` up to `limit`. */
  ghost predicate Tiles(items: seq<CstItem>, from: nat, limit: nat)
    decreases |items|
  {
    if items == [] then from == limit
    else
      var n := |items| - 1;
      match Extent(items[n])
      case None => Tiles(items[..n], from, limit)
      case Some(span) => span.first < span.last == limit && Tiles(items[..n], from, span.first)
  }

  function AsItems(nodes: seq<RecoveryNode>): seq<CstItem> {
    if nodes == [] then [] else AsItems(nodes[..|nodes| - 1]) + [Recovered(nodes[|nodes| - 1])]
  }

  /** The mark of a right brace that was missing. */
  predicate IsInsertedBrace(item: CstItem) {
    item.Recovered? && item.node.kind.Inserted? && item.node.expectedKind == Some(RBrace)
  }

  predicate NoInsertedBrace(body: seq<CstItem>) {
    forall i :: 0 <= i < |body| ==> !IsInsertedBrace(body[i])
  }

  /**
   * A body whose opener precedes `from` and whose owner ends at `limit`: closed, its items tile what is between the
   * braces; unclosed, its items tile everything up to the token where the brace was missed, and the last of them, and no
   * other, marks that.
   */
  ghost predicate BodyCovers(toks: seq<PtxToken>, body: seq<CstItem>, rightBrace: Option<nat>, from: nat, limit: nat) {
    match rightBrace
    case Some(r) => r + 1 == limit && TokenAt(toks, r).kind.RBrace? && Tiles(body, from, r) && NoInsertedBrace(body)
    case None =>
      && Tiles(body, from, limit) && (TokenAt(toks, limit).kind.Eof? || IsFunctionOrModuleBoundary(TokenAt(toks, limit).kind))
      && |body| > 0 && IsInsertedBrace(body[|body| - 1]) && body[|body| - 1].node.at == limit
      && NoInsertedBrace(body[..|body| - 1])
  }

  predicate IsKernelResourceDirective(kind: TokenKind) {
    || kind.DotMaxnreg? || kind.DotMaxntid? || kind.DotReqntid? || kind.DotMinnctapersm? || kind.DotMaxnctapersm?
    || kind.DotReqnctapercluster? || kind.DotExplicitcluster? || kind.DotMaxclusterrank?
  }

  /** Directives that need a function-local label before them. */
  predicate NeedsLabel(kind: TokenKind) {
    kind.DotCallPrototype? || kind.DotCallTargets? || kind.DotBranchTargets?
  }

  /** What the tokens at an item's start say about the production that it came from. */
  predicate Introduces(toks: seq<PtxToken>, p: Production, first: nat, level: nat) {
    var kind := TokenAt(toks, first).kind;
    match p
    case VariableDeclaration => IsVariableStateSpace(kind) || (level == 0 && IsFunctionQualifier(kind))
    case LegacyDwarf => kind.AtAtDwarf?
    case Pragma => kind.DotPragma?
    case Loc => level > 0 && kind.DotLoc?
    case CallPrototype => level > 0 && LabelAt(toks, first) && TokenAt(toks, first + 2).kind.DotCallPrototype?
    case CallTargets => level > 0 && LabelAt(toks, first) && TokenAt(toks, first + 2).kind.DotCallTargets?
    case BranchTargets => level > 0 && LabelAt(toks, first) && TokenAt(toks, first + 2).kind.DotBranchTargets?
    case InstructionTail => level > 0 && kind.Ident? && !TokenAt(toks, first + 1).kind.Colon?
    case Instruction =>
      && level > 0 && !kind.Ident? && !kind.LBrace? && !IsVariableStateSpace(kind) && !kind.AtAtDwarf? && !kind.DotLoc?
      && !kind.DotPragma? && !IsKernelResourceDirective(kind) && !NeedsLabel(kind)
    case Alias => level == 0 && kind.DotIdent? && TokenAt(toks, first).text == ".alias"
    case ModuleDirective => level == 0 && IsModuleDirective(kind)
    case FunctionHeader => false
  }

  predicate LabelAt(toks: seq<PtxToken>, first: nat) {
    TokenAt(toks, first).kind.Ident? && TokenAt(toks, first + 1).kind.Colon?
  }

  /** A token of the qualifier prefix. */
  predicate QualifierAt(toks: seq<PtxToken>, i: nat) {
    IsFunctionQualifier(TokenAt(toks, i).kind)
  }

  /**
   * The whole tree below an item is accounted for. The module's items have level zero, a function body's level one, and
   * each nested block's one more than the block.
   */
  ghost predicate Sound(toks: seq<PtxToken>, item: CstItem, level: nat)
    decreases item
  {
    match item
    case Produced(p, span) => span.first < span.last && Introduces(toks, p, span.first, level)
    case Label(n, c) =>
      level > 0 && c == n + 1 && LabelAt(toks, n) && !NeedsLabel(TokenAt(toks, c + 1).kind)
    case Recovered(node) => node.span.Some? ==> node.span.value.first < node.span.value.last
    case Section(s) => level == 0 && SectionFaithful(toks, s)
    case Prototype(qs, d, t, span) =>
      && level == 0 && FunctionStart(toks, qs, d, span) && TokenAt(toks, d).kind.DotFunc?
      && TokenAt(toks, t).kind.Semicolon? && d < t && span.last == t + 1
    case Function(qs, d, l, body, r, span) =>
      && level == 0 && FunctionStart(toks, qs, d, span) && IsFunctionDirective(TokenAt(toks, d).kind)
      && d < l < span.last && TokenAt(toks, l).kind.LBrace? && BodyCovers(toks, body, r, l + 1, span.last)
      && forall i :: 0 <= i < |body| ==> Sound(toks, body[i], 1)
    case Block(l, body, r, span) =>
      && 1 <= level <= MAX_NESTED_BLOCK_DEPTH
      && span.first == l < span.last && TokenAt(toks, l).kind.LBrace? && BodyCovers(toks, body, r, l + 1, span.last)
      && forall i :: 0 <= i < |body| ==> Sound(toks, body[i], level + 1)
  }

  predicate IsFunctionDirective(kind: TokenKind) {
    kind.DotEntry? || kind.DotFunc?
  }

  /** A function begins with its qualifiers, each of them one, and then its directive. */
  ghost predicate FunctionStart(toks: seq<PtxToken>, qualifiers: seq<nat>, directive: nat, span: TokenRange) {
    && span.first <= directive && qualifiers == Run(span.first, directive)
    && forall i :: span.first <= i < directive ==> QualifierAt(toks, i)
  }

  ghost predicate SectionFaithful(toks: seq<PtxToken>, s: SectionDirective) {
    && s.span.first + 2 == s.leftBrace < s.rightBrace < s.span.last
    && TokenAt(toks, s.leftBrace).kind.LBrace? && Closes(toks, s.leftBrace + 1, s.rightBrace)
    && s.payloadTokens == Run(s.leftBrace + 1, s.rightBrace)
  }

  ghost predicate AllSound(toks: seq<PtxToken>, items: seq<CstItem>, level: nat) {
    forall i :: 0 <= i < |items| ==> Sound(toks, items[i], level)
  }

  /** No recovery anywhere in the tree. */
  ghost predicate Unrecovered(item: CstItem)
    decreases item
  {
    match item
    case Recovered(_) => false
    case Block(_, body, _, _) => forall i :: 0 <= i < |body| ==> Unrecovered(body[i])
    case Function(_, _, _, body, _, _) => forall i :: 0 <= i < |body| ==> Unrecovered(body[i])
    case _ => true
  }

  ghost predicate AllUnrecovered(items: seq<CstItem>) {
    forall i :: 0 <= i < |items| ==> Unrecovered(items[i])
  }

  /** How many blocks are nested in an item, itself included. */
  function Nesting(item: CstItem): nat
    decreases item, 0
  {
    match item
    case Block(_, body, _, _) => 1 + DeepestNesting(body)
    case Function(_, _, _, body, _, _) => DeepestNesting(body)
    case _ => 0
  }

  function DeepestNesting(items: seq<CstItem>): nat
    decreases items, 1
  {
    if items == [] then 0
    else Max(DeepestNesting(items[..|items| - 1]), Nesting(items[|items| - 1]))
  }

  // ---- appending to a body ----------------------------------------------------------------------

  lemma TilesAppend(items: seq<CstItem>, item: CstItem, from: nat, mid: nat, limit: nat)
    requires Tiles(items, from, mid)
    requires match Extent(item) case None => mid == limit case Some(span) => span == TokenRange(mid, limit) && mid < limit
    ensures Tiles(items + [item], from, limit)
  {
    assert (items + [item])[..|items|] == items;
  }

  lemma {:induction false} TilesAppendNodes(items: seq<CstItem>, nodes: seq<RecoveryNode>, from: nat, mid: nat, limit: nat)
    requires Tiles(items, from, mid) && NodesTile(nodes, mid, limit)
    ensures Tiles(items + AsItems(nodes), from, limit)
    decreases |nodes|
  {
    if nodes == [] {
      assert items + AsItems(nodes) == items;
    } else {
      var n := |nodes| - 1;
      var node := nodes[n];
      var before := if node.span.None? then limit else node.span.value.first;
      TilesAppendNodes(items, nodes[..n], from, mid, before);
      assert items + AsItems(nodes) == (items + AsItems(nodes[..n])) + [Recovered(node)];
      TilesAppend(items + AsItems(nodes[..n]), Recovered(node), from, before, limit);
    }
  }

  lemma {:induction false} AsItemsAt(nodes: seq<RecoveryNode>)
    ensures |AsItems(nodes)| == |nodes| && forall i :: 0 <= i < |nodes| ==> AsItems(nodes)[i] == Recovered(nodes[i])
  {
    if nodes != [] {
      AsItemsAt(nodes[..|nodes| - 1]);
    }
  }

  /** A tiled range is not reversed. */
  lemma {:induction false} TilesOrdered(items: seq<CstItem>, from: nat, limit: nat)
    requires Tiles(items, from, limit)
    ensures from <= limit
    decreases |items|
  {
    if items != [] {
      var n := |items| - 1;
      TilesOrdered(items[..n], from, if Extent(items[n]).None? then limit else Extent(items[n]).value.first);
    }
  }

  ghost predicate Covers(item: CstItem, i: nat) {
    Extent(item).Some? && Extent(item).value.first <= i < Extent(item).value.last
  }

  /** Tiling means just this: every token of the range lies in exactly one item, and no other token in any. */
  lemma {:induction false} EachTokenOnce(items: seq<CstItem>, from: nat, limit: nat, i: nat) returns (owner: nat)
    requires Tiles(items, from, limit)
    ensures from <= i < limit ==> owner < |items| && Covers(items[owner], i)
    ensures forall k :: 0 <= k < |items| && Covers(items[k], i) ==> from <= i < limit && k == owner
    decreases |items|
  {
    owner := 0;
    if items != [] {
      var n := |items| - 1;
      var mid := if Extent(items[n]).None? then limit else Extent(items[n]).value.first;
      TilesOrdered(items[..n], from, mid);
      owner := EachTokenOnce(items[..n], from, mid, i);
      assert forall k :: 0 <= k < n ==> items[..n][k] == items[k];
      if Covers(items[n], i) {
        owner := n;
      }
    }
  }

  /** Of two items of one tiling the earlier ends before the later begins, so no two have one extent. */
  lemma {:induction false} ExtentsInOrder(items: seq<CstItem>, from: nat, limit: nat, i: nat, j: nat)
    requires Tiles(items, from, limit) && i < j < |items| && Extent(items[i]).Some? && Extent(items[j]).Some?
    ensures var a, b := Extent(items[i]).value, Extent(items[j]).value;
      from <= a.first < a.last <= b.first < b.last <= limit && a != b
    decreases |items|
  {
    var n := |items| - 1;
    var mid := if Extent(items[n]).None? then limit else Extent(items[n]).value.first;
    TilesOrdered(items[..n], from, mid);
    if j < n {
      ExtentsInOrder(items[..n], from, mid, i, j);
    } else {
      ExtentWithin(items[..n], from, mid, i);
    }
  }

  lemma {:induction false} ExtentWithin(items: seq<CstItem>, from: nat, limit: nat, i: nat)
    requires Tiles(items, from, limit) && i < |items| && Extent(items[i]).Some?
    ensures from <= Extent(items[i]).value.first < Extent(items[i]).value.last <= limit
    decreases |items|
  {
    var n := |items| - 1;
    var mid := if Extent(items[n]).None? then limit else Extent(items[n]).value.first;
    TilesOrdered(items[..n], from, mid);
    if i < n {
      ExtentWithin(items[..n], from, mid, i);
    }
  }

  /** Blocks nest at most to the limit, counted from the function body however deep the item stands. */
  lemma {:induction false} SoundNesting(toks: seq<PtxToken>, item: CstItem, level: nat)
    requires Sound(toks, item, level) && level <= MAX_NESTED_BLOCK_DEPTH + 1
    ensures Nesting(item) + Max(level, 1) <= MAX_NESTED_BLOCK_DEPTH + 1
    decreases item, 0
  {
    hide BodyCovers, FunctionStart;
    match item
    case Block(_, body, _, _) => SoundDeepestNesting(toks, body, level + 1);
    case Function(_, _, _, body, _, _) => SoundDeepestNesting(toks, body, 1);
    case _ =>
  }

  lemma {:induction false} SoundDeepestNesting(toks: seq<PtxToken>, items: seq<CstItem>, level: nat)
    requires AllSound(toks, items, level) && level <= MAX_NESTED_BLOCK_DEPTH + 1
    ensures DeepestNesting(items) + Max(level, 1) <= MAX_NESTED_BLOCK_DEPTH + 1
    decreases items, 1
  {
    hide Sound;
    if items != [] {
      SoundDeepestNesting(toks, items[..|items| - 1], level);
      SoundNesting(toks, items[|items| - 1], level);
    }
  }
}
