/** What the drivers guarantee on every token stream, malformed or not. */
module DriverTheorems {
  import opened Common
  import opened Tokens
  import opened ConstantGrammar
  import opened SectionGrammar
  import opened SectionParser
  import opened Recovering
  import opened SourceTree
  import opened Drivers

  // ---- recovered nodes as items -----------------------------------------------------------------

  /** Recovery's nodes are well formed and none of them stands for a right brace. */
  lemma RecoveredNodes(toks: seq<PtxToken>, first: nat, current: nat, d: Diagnostic, context: RecoveryContext)
    requires first <= current
    ensures var nodes := Recover(toks, first, current, d, context).nodes;
      forall i :: 0 <= i < |nodes| ==>
        && nodes[i].expectedKind != Some(RBrace)
        && (nodes[i].span.Some? ==> nodes[i].span.value.first < nodes[i].span.value.last)
  {
    hide Recover, SkipFrom;
    RecoveryMarks(toks, first, current, d, context);
  }

  /** Appending what recovery kept preserves all that is known of the items so far. */
  lemma RecoveredItems(toks: seq<PtxToken>, items: seq<CstItem>, from: nat, first: nat, current: nat, d: Diagnostic,
                       context: RecoveryContext, level: nat)
    requires first <= current && Tiles(items, from, first) && AllSound(toks, items, level)
    ensures var r := Recover(toks, first, current, d, context);
      var more := items + AsItems(r.nodes);
      && Tiles(more, from, r.pos) && AllSound(toks, more, level) && (NoInsertedBrace(items) ==> NoInsertedBrace(more))
  {
    hide Recover, NodesTile, AsItems;
    var r := Recover(toks, first, current, d, context);
    RecoveryTiles(toks, first, current, d, context);
    RecoveredNodes(toks, first, current, d, context);
    AsItemsAt(r.nodes);
    TilesAppendNodes(items, r.nodes, from, first, r.pos);
  }

  // ---- every body is covered --------------------------------------------------------------------

  lemma MissingBraceCovers(toks: seq<PtxToken>, body: seq<CstItem>, diagnostics: seq<Diagnostic>, start: nat, anchor: nat,
                           level: nat)
    requires Tiles(body, start, anchor) && AllSound(toks, body, level) && NoInsertedBrace(body)
    requires TokenAt(toks, anchor).kind.Eof? || IsFunctionOrModuleBoundary(TokenAt(toks, anchor).kind)
    ensures var r := MissingBrace(body, diagnostics, anchor);
      BodyCovers(toks, r.body, r.rightBrace, start, r.pos) && AllSound(toks, r.body, level)
  {
    hide Tiles;
    var mark := Recovered(RecoveryNode(Inserted, Some(RBrace), None, anchor));
    TilesAppend(body, mark, start, anchor, anchor);
    assert (body + [mark])[..|body|] == body;
  }

  /** Recovery in a body stops before a boundary, before the end, or where the body goes on. */
  lemma BodyRecoveryStops(toks: seq<PtxToken>, first: nat, current: nat, d: Diagnostic)
    requires first <= current
    ensures var r := Recover(toks, first, current, d, FunctionBody);
      !BodyGoesOn(r.stop) ==> TokenAt(toks, r.pos).kind.Eof? || IsFunctionOrModuleBoundary(TokenAt(toks, r.pos).kind)
  {
    hide Recover;
    RecoveryStopsBeforeAnchors(toks, first, current, d, FunctionBody);
  }

  lemma AppendSound(toks: seq<PtxToken>, items: seq<CstItem>, item: CstItem, from: nat, mid: nat, limit: nat, level: nat)
    requires Tiles(items, from, mid) && AllSound(toks, items, level)
    requires mid < limit && Extent(item) == Some(TokenRange(mid, limit)) && Sound(toks, item, level)
    ensures Tiles(items + [item], from, limit) && AllSound(toks, items + [item], level)
    ensures NoInsertedBrace(items) && !item.Recovered? ==> NoInsertedBrace(items + [item])
  {
    hide Sound, Tiles;
    TilesAppend(items, item, from, mid, limit);
  }

  /** Body items tile what follows the opener, whatever was refused and recovered on the way. */
  lemma {:induction false} BodyIsCovered(f: Productions, toks: seq<PtxToken>, start: nat, pos: nat, body: seq<CstItem>,
                                         diagnostics: seq<Diagnostic>, depth: nat)
    requires depth <= MAX_NESTED_BLOCK_DEPTH
    requires Tiles(body, start, pos) && AllSound(toks, body, depth + 1) && NoInsertedBrace(body)
    ensures var r := ParseBody(f, toks, pos, body, diagnostics, depth);
      BodyCovers(toks, r.body, r.rightBrace, start, r.pos) && AllSound(toks, r.body, depth + 1)
    decreases Remaining(toks, pos), 2
  {
    hide Tiles, AllSound, NoInsertedBrace, ParseBodyItem, Recover, MissingBrace, IsFunctionOrModuleBoundary;
    var kind := TokenAt(toks, pos).kind;
    if kind.RBrace? {
    } else if kind.Eof? || IsFunctionOrModuleBoundary(kind) {
      MissingBraceCovers(toks, body, diagnostics, start, pos, depth + 1);
    } else {
      var parsed := ParseBodyItem(f, toks, pos, diagnostics, depth);
      if parsed.item.Parsed? {
        BodyItemIsCovered(f, toks, pos, diagnostics, depth);
        AppendSound(toks, body, parsed.item.value, start, pos, parsed.item.pos, depth + 1);
        BodyIsCovered(f, toks, start, parsed.item.pos, body + [parsed.item.value], parsed.diagnostics, depth);
      } else {
        var d, at := parsed.item.diagnostic, parsed.item.pos;
        var recovery := Recover(toks, pos, at, d, FunctionBody);
        RecoveredItems(toks, body, start, pos, at, d, FunctionBody, depth + 1);
        BodyRecoveryAdvances(f, toks, pos, diagnostics, depth);
        BodyRecoveryStops(toks, pos, at, d);
        if BodyGoesOn(recovery.stop) {
          BodyIsCovered(f, toks, start, recovery.pos, body + AsItems(recovery.nodes), parsed.diagnostics + [d], depth);
        } else {
          MissingBraceCovers(toks, body + AsItems(recovery.nodes), parsed.diagnostics + [d], start, recovery.pos, depth + 1);
        }
      }
    }
  }

  /** Each turn of the body loop consumes a token, even when its item was refused without consuming any. */
  lemma BodyRecoveryAdvances(f: Productions, toks: seq<PtxToken>, pos: nat, diagnostics: seq<Diagnostic>, depth: nat)
    requires var kind := TokenAt(toks, pos).kind; !kind.RBrace? && !kind.Eof? && !IsFunctionOrModuleBoundary(kind)
    requires ParseBodyItem(f, toks, pos, diagnostics, depth).item.Failed?
    ensures var refused := ParseBodyItem(f, toks, pos, diagnostics, depth).item;
      && Advances(toks, pos, refused.pos, refused.diagnostic, FunctionBody)
      && Recover(toks, pos, refused.pos, refused.diagnostic, FunctionBody).pos > pos
  {
    hide ParseBodyItem, Recover, IsFunctionOrModuleBoundary;
  }

  lemma {:induction false} BodyItemIsCovered(f: Productions, toks: seq<PtxToken>, pos: nat, diagnostics: seq<Diagnostic>,
                                             depth: nat)
    requires depth <= MAX_NESTED_BLOCK_DEPTH
    ensures var r := ParseBodyItem(f, toks, pos, diagnostics, depth).item;
      r.Parsed? ==>
        !r.value.Recovered? && Extent(r.value) == Some(TokenRange(pos, r.pos)) && Sound(toks, r.value, depth + 1)
    decreases Remaining(toks, pos), 1
  {
    hide ParseBody, ParseSimpleItem, BodyCovers;
    if TokenAt(toks, pos).kind.LBrace? {
      if depth < MAX_NESTED_BLOCK_DEPTH {
        EmptyBody(toks, pos + 1, depth + 2);
        BodyIsCovered(f, toks, pos + 1, pos + 1, [], diagnostics, depth + 1);
      }
    } else {
      SimpleItemIsCovered(f, toks, pos, depth + 1);
    }
  }

  lemma EmptyBody(toks: seq<PtxToken>, start: nat, level: nat)
    ensures Tiles([], start, start) && AllSound(toks, [], level) && NoInsertedBrace([])
  {
  }

  /** A body item that is not a block comes from the production that its first tokens introduce. */
  lemma SimpleItemIsCovered(f: Productions, toks: seq<PtxToken>, pos: nat, level: nat)
    requires level > 0 && !TokenAt(toks, pos).kind.LBrace?
    ensures var r := ParseSimpleItem(f, toks, pos);
      r.Parsed? ==> !r.value.Recovered? && Extent(r.value) == Some(TokenRange(pos, r.pos)) && Sound(toks, r.value, level)
  {
    hide IsVariableStateSpace, IsKernelResourceDirective, NeedsLabel, ParseLabelled;
    if TokenAt(toks, pos).kind.Ident? {
      LabelledIsCovered(f, toks, pos, level);
    }
  }

  lemma LabelledIsCovered(f: Productions, toks: seq<PtxToken>, pos: nat, level: nat)
    requires level > 0 && TokenAt(toks, pos).kind.Ident?
    ensures var r := ParseLabelled(f, toks, pos);
      r.Parsed? ==> !r.value.Recovered? && Extent(r.value) == Some(TokenRange(pos, r.pos)) && Sound(toks, r.value, level)
  {
    hide IsVariableStateSpace, IsKernelResourceDirective;
  }

  lemma SimpleModuleItemIsCovered(f: Productions, toks: seq<PtxToken>, start: nat, pos: nat)
    requires start <= pos && forall i :: start <= i < pos ==> QualifierAt(toks, i)
    ensures var r := ParseSimpleModuleItem(f, toks, start, pos, ClassifyModuleSource(TokenAt(toks, pos)));
      r.Parsed? ==> !r.value.Recovered? && Extent(r.value) == Some(TokenRange(start, r.pos)) && Sound(toks, r.value, 0)
  {
    hide IsVariableStateSpace, IsModuleDirective;
    assert pos > start ==> QualifierAt(toks, start);
  }

  /** A body that ends without its brace reports that, last and at the token where it was missed. */
  lemma {:induction false} MissingBraceReported(f: Productions, toks: seq<PtxToken>, pos: nat, body: seq<CstItem>,
                                                diagnostics: seq<Diagnostic>, depth: nat)
    ensures var r := ParseBody(f, toks, pos, body, diagnostics, depth);
      match r.rightBrace
      case Some(close) => TokenAt(toks, close).kind.RBrace? && r.pos == close + 1
      case None => |r.diagnostics| > 0 && r.diagnostics[|r.diagnostics| - 1] == Expected(r.pos, RBrace)
    decreases Remaining(toks, pos), 2
  {
    hide ParseBodyItem, Recover, IsFunctionOrModuleBoundary, AsItems;
    var kind := TokenAt(toks, pos).kind;
    if !kind.RBrace? && !kind.Eof? && !IsFunctionOrModuleBoundary(kind) {
      var parsed := ParseBodyItem(f, toks, pos, diagnostics, depth);
      if parsed.item.Parsed? {
        MissingBraceReported(f, toks, parsed.item.pos, body + [parsed.item.value], parsed.diagnostics, depth);
      } else {
        var d, at := parsed.item.diagnostic, parsed.item.pos;
        var recovery := Recover(toks, pos, at, d, FunctionBody);
        BodyRecoveryAdvances(f, toks, pos, diagnostics, depth);
        if BodyGoesOn(recovery.stop) {
          MissingBraceReported(f, toks, recovery.pos, body + AsItems(recovery.nodes), parsed.diagnostics + [d], depth);
        }
      }
    }
  }

  // ---- modules ----------------------------------------------------------------------------------

  lemma {:induction false} QualifiersAre(toks: seq<PtxToken>, pos: nat)
    ensures forall i :: pos <= i < QualifiersEnd(toks, pos) ==> QualifierAt(toks, i)
    ensures !QualifierAt(toks, QualifiersEnd(toks, pos))
    decreases Remaining(toks, pos)
  {
    if QualifierAt(toks, pos) {
      QualifiersAre(toks, pos + 1);
    }
  }

  lemma FunctionIsCovered(f: Productions, toks: seq<PtxToken>, start: nat, pos: nat, diagnostics: seq<Diagnostic>)
    requires start <= pos && forall i :: start <= i < pos ==> QualifierAt(toks, i)
    ensures var r := ParseFunction(f, toks, start, pos, diagnostics).item;
      r.Parsed? ==> !r.value.Recovered? && Extent(r.value) == Some(TokenRange(start, r.pos)) && Sound(toks, r.value, 0)
  {
    hide ParseBody, BodyCovers, QualifierAt;
    assert OutcomeFits(FunctionHeader, pos + 1, f(FunctionHeader, toks, pos + 1));
    var header := f(FunctionHeader, toks, pos + 1);
    if header.Accepted? {
      EmptyBody(toks, header.end + 1, 1);
      BodyIsCovered(f, toks, header.end + 1, header.end + 1, [], diagnostics, 0);
    }
  }

  lemma ModuleItemIsCovered(f: Productions, toks: seq<PtxToken>, start: nat, diagnostics: seq<Diagnostic>)
    ensures var r := ParseModuleItem(f, toks, start, diagnostics).item;
      r.Parsed? ==> Extent(r.value) == Some(TokenRange(start, r.pos)) && Sound(toks, r.value, 0)
  {
    hide ParseFunction, ParseSection, BodyCovers, FunctionStart, QualifierAt, Closes, ClassifyModuleSource, Introduces,
      ParseSimpleModuleItem;
    var pos := QualifiersEnd(toks, start);
    QualifiersAre(toks, start);
    FunctionIsCovered(f, toks, start, pos, diagnostics);
    SectionIsCovered(toks, pos);
    SimpleModuleItemIsCovered(f, toks, start, pos);
  }

  lemma SectionIsCovered(toks: seq<PtxToken>, pos: nat)
    ensures var r := ParseSection(toks, pos);
      r.Parsed? ==> r.value.section.span == TokenRange(pos, r.pos) && SectionFaithful(toks, r.value.section)
  {
    hide Closes, NeverNegative, EntriesTile, FindClose, ParseEntries;
    if ParseSection(toks, pos).Parsed? {
      ParsedSectionIsFaithful(toks, pos);
    }
  }

  /** Each turn of the module loop consumes a token. */
  lemma ModuleRecoveryAdvances(toks: seq<PtxToken>, first: nat, current: nat, d: Diagnostic)
    requires first <= current && !TokenAt(toks, first).kind.Eof?
    ensures Recover(toks, first, current, d, ModuleLevel).pos > first
  {
    hide Recover;
  }

  /** Module items, recovered spans included, are disjoint, in order and cover exactly the tokens before the final end. */
  lemma {:induction false} ItemsAreCovered(f: Productions, toks: seq<PtxToken>, first: nat, pos: nat, items: seq<CstItem>,
                                           diagnostics: seq<Diagnostic>)
    requires Tiles(items, first, pos) && AllSound(toks, items, 0)
    ensures var r := ParseItems(f, toks, pos, items, diagnostics);
      Tiles(r.items, first, r.pos) && AllSound(toks, r.items, 0) && TokenAt(toks, r.pos).kind.Eof?
    decreases Remaining(toks, pos)
  {
    hide Tiles, AllSound, ParseModuleItem, Recover;
    if !TokenAt(toks, pos).kind.Eof? {
      var parsed := ParseModuleItem(f, toks, pos, diagnostics);
      if parsed.item.Parsed? {
        ModuleItemIsCovered(f, toks, pos, diagnostics);
        AppendSound(toks, items, parsed.item.value, first, pos, parsed.item.pos, 0);
        ItemsAreCovered(f, toks, first, parsed.item.pos, items + [parsed.item.value], parsed.diagnostics);
      } else {
        var d, at := parsed.item.diagnostic, parsed.item.pos;
        var recovery := Recover(toks, pos, at, d, ModuleLevel);
        RecoveredItems(toks, items, first, pos, at, d, ModuleLevel, 0);
        ModuleRecoveryAdvances(toks, pos, at, d);
        ItemsAreCovered(f, toks, first, recovery.pos, items + AsItems(recovery.nodes), parsed.diagnostics + [d]);
      }
    }
  }

  /** A module parse is sound, reaches the end, nests blocks to the limit, and is empty only for an empty source. */
  lemma ModuleIsCovered(f: Productions, toks: seq<PtxToken>, first: nat)
    ensures var r := ParseItems(f, toks, first, [], []);
      && Tiles(r.items, first, r.pos) && AllSound(toks, r.items, 0) && TokenAt(toks, r.pos).kind.Eof?
      && DeepestNesting(r.items) <= MAX_NESTED_BLOCK_DEPTH
      && (r.items == [] <==> TokenAt(toks, first).kind.Eof?)
  {
    hide Sound;
    EmptyBody(toks, first, 0);
    ItemsAreCovered(f, toks, first, first, [], []);
    SoundDeepestNesting(toks, ParseItems(f, toks, first, [], []).items, 0);
  }

  // ---- recovery is never silent -----------------------------------------------------------------

  ghost predicate OnlyPayload(diagnostics: seq<Diagnostic>) {
    forall i :: 0 <= i < |diagnostics| ==> diagnostics[i].SectionPayload?
  }

  /** From items and diagnostics that show no recovery, these show it either both or neither. */
  ghost predicate ShowAlike(items: seq<CstItem>, diagnostics: seq<Diagnostic>, more: seq<CstItem>, reported: seq<Diagnostic>) {
    && diagnostics <= reported && items <= more
    && (OnlyPayload(diagnostics) && AllUnrecovered(items) ==> (OnlyPayload(reported) <==> AllUnrecovered(more)))
  }

  /** Appending one item, with the diagnostics reported inside it. */
  lemma ShowItem(items: seq<CstItem>, diagnostics: seq<Diagnostic>, item: CstItem, reported: seq<Diagnostic>,
                 more: seq<CstItem>, all: seq<Diagnostic>)
    requires diagnostics <= reported && (OnlyPayload(diagnostics) ==> (OnlyPayload(reported) <==> Unrecovered(item)))
    requires ShowAlike(items + [item], reported, more, all)
    ensures ShowAlike(items, diagnostics, more, all)
  {
    hide Unrecovered;
    assert items == (items + [item])[..|items|];
    if OnlyPayload(diagnostics) && AllUnrecovered(items) {
      assert AllUnrecovered(items + [item]) <==> Unrecovered(item) by {
        assert (items + [item])[|items|] == item;
      }
      if !Unrecovered(item) {
        NotOnlyPayload(reported, all);
        assert more[|items|] == (items + [item])[|items|] == item;
      }
    }
  }

  lemma NotOnlyPayload(reported: seq<Diagnostic>, all: seq<Diagnostic>)
    requires reported <= all && !OnlyPayload(reported)
    ensures !OnlyPayload(all)
  {
  }

  /** A refusal is reported, and what was recovered of it is marked. */
  lemma ShowRecovery(items: seq<CstItem>, diagnostics: seq<Diagnostic>, nodes: seq<RecoveryNode>, d: Diagnostic,
                     more: seq<CstItem>, all: seq<Diagnostic>)
    requires nodes != [] && !d.SectionPayload?
    requires items + AsItems(nodes) <= more && diagnostics + [d] <= all
    ensures ShowAlike(items, diagnostics, more, all)
    ensures !OnlyPayload(all) && !AllUnrecovered(more)
  {
    hide Unrecovered, AsItems;
    AsItemsAt(nodes);
    assert all[|diagnostics|] == (diagnostics + [d])[|diagnostics|] == d;
    assert more[|items|] == (items + AsItems(nodes))[|items|] == Recovered(nodes[0]);
    assert !Unrecovered(more[|items|]) by { RecoveredShows(nodes[0]); }
    assert items == (items + AsItems(nodes))[..|items|];
    assert diagnostics == (diagnostics + [d])[..|diagnostics|];
  }

  lemma RecoveredShows(node: RecoveryNode)
    ensures !Unrecovered(Recovered(node))
  {
  }

  lemma ShowMissingBrace(items: seq<CstItem>, diagnostics: seq<Diagnostic>, anchor: nat)
    ensures var r := MissingBrace(items, diagnostics, anchor);
      ShowAlike(items, diagnostics, r.body, r.diagnostics) && !OnlyPayload(r.diagnostics) && !AllUnrecovered(r.body)
      && items <= r.body && diagnostics <= r.diagnostics
  {
    hide Unrecovered;
    var mark := RecoveryNode(Inserted, Some(RBrace), None, anchor);
    assert AsItems([mark]) == [Recovered(mark)] by { assert [mark][..0] == []; }
    ShowRecovery(items, diagnostics, [mark], Expected(anchor, RBrace), items + [Recovered(mark)],
      diagnostics + [Expected(anchor, RBrace)]);
  }

  lemma {:induction false} BodyShowsRecovery(f: Productions, toks: seq<PtxToken>, pos: nat, body: seq<CstItem>,
                                             diagnostics: seq<Diagnostic>, depth: nat)
    ensures var r := ParseBody(f, toks, pos, body, diagnostics, depth); ShowAlike(body, diagnostics, r.body, r.diagnostics)
    decreases Remaining(toks, pos), 2
  {
    hide ParseBodyItem, Recover, MissingBrace, IsFunctionOrModuleBoundary, Unrecovered, ShowAlike, OnlyPayload;
    var kind := TokenAt(toks, pos).kind;
    if kind.RBrace? {
      ShowNothing(body, diagnostics);
    } else if kind.Eof? || IsFunctionOrModuleBoundary(kind) {
      ShowMissingBrace(body, diagnostics, pos);
    } else {
      var r := ParseBody(f, toks, pos, body, diagnostics, depth);
      var parsed := ParseBodyItem(f, toks, pos, diagnostics, depth);
      if parsed.item.Parsed? {
        BodyItemShowsRecovery(f, toks, pos, diagnostics, depth);
        BodyShowsRecovery(f, toks, parsed.item.pos, body + [parsed.item.value], parsed.diagnostics, depth);
        ShowItem(body, diagnostics, parsed.item.value, parsed.diagnostics, r.body, r.diagnostics);
      } else {
        var d, at := parsed.item.diagnostic, parsed.item.pos;
        var recovery := Recover(toks, pos, at, d, FunctionBody);
        var more, all := body + AsItems(recovery.nodes), parsed.diagnostics + [d];
        BodyRecoveryAdvances(f, toks, pos, diagnostics, depth);
        RecoveryTiles(toks, pos, at, d, FunctionBody);
        if BodyGoesOn(recovery.stop) {
          BodyShowsRecovery(f, toks, recovery.pos, more, all, depth);
          Prefixes(more, all, r.body, r.diagnostics);
        } else {
          ShowMissingBrace(more, all, recovery.pos);
        }
        ShowRecovery(body, diagnostics, recovery.nodes, d, r.body, r.diagnostics);
      }
    }
  }

  lemma ShowNothing(items: seq<CstItem>, diagnostics: seq<Diagnostic>)
    ensures ShowAlike(items, diagnostics, items, diagnostics)
  {
    hide Unrecovered;
  }

  lemma Prefixes(items: seq<CstItem>, diagnostics: seq<Diagnostic>, more: seq<CstItem>, reported: seq<Diagnostic>)
    requires ShowAlike(items, diagnostics, more, reported)
    ensures items <= more && diagnostics <= reported
  {
  }

  lemma {:induction false} BodyItemShowsRecovery(f: Productions, toks: seq<PtxToken>, pos: nat, diagnostics: seq<Diagnostic>,
                                                 depth: nat)
    ensures var r := ParseBodyItem(f, toks, pos, diagnostics, depth);
      && diagnostics <= r.diagnostics
      && (r.item.Parsed? && OnlyPayload(diagnostics) ==> (OnlyPayload(r.diagnostics) <==> Unrecovered(r.item.value)))
    decreases Remaining(toks, pos), 1
  {
    hide ParseBody, ParseSimpleItem, OnlyPayload;
    if TokenAt(toks, pos).kind.LBrace? {
      if depth < MAX_NESTED_BLOCK_DEPTH {
        BodyShowsRecovery(f, toks, pos + 1, [], diagnostics, depth + 1);
      }
    } else {
      SimpleItemUnrecovered(f, toks, pos);
    }
  }

  lemma SimpleItemUnrecovered(f: Productions, toks: seq<PtxToken>, pos: nat)
    ensures ParseSimpleItem(f, toks, pos).Parsed? ==> Unrecovered(ParseSimpleItem(f, toks, pos).value)
  {
    hide IsVariableStateSpace, IsKernelResourceDirective, NeedsLabel;
  }

  lemma ModuleItemShowsRecovery(f: Productions, toks: seq<PtxToken>, start: nat, diagnostics: seq<Diagnostic>)
    ensures var r := ParseModuleItem(f, toks, start, diagnostics);
      && diagnostics <= r.diagnostics
      && (r.item.Parsed? && OnlyPayload(diagnostics) ==> (OnlyPayload(r.diagnostics) <==> Unrecovered(r.item.value)))
  {
    hide ParseFunction, ParseSection, ClassifyModuleSource, QualifiersEnd;
    var pos := QualifiersEnd(toks, start);
    FunctionShowsRecovery(f, toks, start, pos, diagnostics);
    PayloadErrorIsPayload(toks, pos);
  }

  lemma PayloadErrorIsPayload(toks: seq<PtxToken>, pos: nat)
    ensures var r := ParseSection(toks, pos);
      r.Parsed? && r.value.payloadError.Some? ==> r.value.payloadError.value.SectionPayload?
  {
    hide ParseSection, Closes, NeverNegative, EntriesTile;
    if ParseSection(toks, pos).Parsed? {
      ParsedSectionIsFaithful(toks, pos);
    }
  }

  lemma FunctionShowsRecovery(f: Productions, toks: seq<PtxToken>, start: nat, pos: nat, diagnostics: seq<Diagnostic>)
    requires start <= pos
    ensures var r := ParseFunction(f, toks, start, pos, diagnostics);
      && diagnostics <= r.diagnostics
      && (r.item.Parsed? && OnlyPayload(diagnostics) ==> (OnlyPayload(r.diagnostics) <==> Unrecovered(r.item.value)))
  {
    hide ParseBody, OnlyPayload;
    assert OutcomeFits(FunctionHeader, pos + 1, f(FunctionHeader, toks, pos + 1));
    var header := f(FunctionHeader, toks, pos + 1);
    if header.Accepted? {
      BodyShowsRecovery(f, toks, header.end + 1, [], diagnostics, 0);
    }
  }

  lemma {:induction false} ItemsShowRecovery(f: Productions, toks: seq<PtxToken>, pos: nat, items: seq<CstItem>,
                                             diagnostics: seq<Diagnostic>)
    ensures var r := ParseItems(f, toks, pos, items, diagnostics); ShowAlike(items, diagnostics, r.items, r.diagnostics)
    decreases Remaining(toks, pos)
  {
    hide ParseModuleItem, Recover, Unrecovered, ShowAlike, OnlyPayload;
    if TokenAt(toks, pos).kind.Eof? {
      ShowNothing(items, diagnostics);
    } else {
      var r := ParseItems(f, toks, pos, items, diagnostics);
      var parsed := ParseModuleItem(f, toks, pos, diagnostics);
      if parsed.item.Parsed? {
        ModuleItemShowsRecovery(f, toks, pos, diagnostics);
        ItemsShowRecovery(f, toks, parsed.item.pos, items + [parsed.item.value], parsed.diagnostics);
        ShowItem(items, diagnostics, parsed.item.value, parsed.diagnostics, r.items, r.diagnostics);
      } else {
        var d, at := parsed.item.diagnostic, parsed.item.pos;
        var recovery := Recover(toks, pos, at, d, ModuleLevel);
        ModuleRecoveryAdvances(toks, pos, at, d);
        RecoveryTiles(toks, pos, at, d, ModuleLevel);
        ItemsShowRecovery(f, toks, recovery.pos, items + AsItems(recovery.nodes), parsed.diagnostics + [d]);
        Prefixes(items + AsItems(recovery.nodes), parsed.diagnostics + [d], r.items, r.diagnostics);
        ShowRecovery(items, diagnostics, recovery.nodes, d, r.items, r.diagnostics);
      }
    }
  }

  /** A parse has no recovery anywhere in its tree if and only if it reports nothing but section-payload errors. */
  lemma RecoveryIsReported(f: Productions, toks: seq<PtxToken>, first: nat)
    ensures var r := ParseItems(f, toks, first, [], []); AllUnrecovered(r.items) <==> OnlyPayload(r.diagnostics)
  {
    ItemsShowRecovery(f, toks, first, [], []);
  }
}
