/** What the drivers read without recovery: exactly the trees that are laid out in the stream. */
module DriverInversion {
  import opened Common
  import opened Tokens
  import opened ConstantGrammar
  import opened SectionGrammar
  import opened SectionParser
  import opened Recovering
  import opened SourceTree
  import opened Drivers
  import opened DriverTheorems
  import opened SourceKinds

  /** Where the production of an item that begins at `first` takes over: after the qualifiers or the label. */
  function ProducedFrom(toks: seq<PtxToken>, p: Production, first: nat): (at: nat)
    ensures at >= first
  {
    match p
    case VariableDeclaration => QualifiersEnd(toks, first)
    case CallPrototype => first + 2
    case CallTargets => first + 2
    case BranchTargets => first + 2
    case InstructionTail => first + 1
    case _ => first
  }

  /** A token that a body's, or at level zero a module's, items end before. */
  predicate EndsItems(kind: TokenKind, level: nat) {
    kind.Eof? || (level > 0 && (kind.RBrace? || AfterBodyKind(kind)))
  }

  /** A function's linkage, and then its directive. */
  ghost predicate Headed(toks: seq<PtxToken>, qualifiers: seq<nat>, directive: nat, span: TokenRange) {
    && span.first <= directive && qualifiers == Run(span.first, directive)
    && forall i :: span.first <= i < directive ==> LinkageKind(TokenAt(toks, i).kind)
  }

  lemma HeadedStarts(toks: seq<PtxToken>, qualifiers: seq<nat>, directive: nat, span: TokenRange)
    ensures Headed(toks, qualifiers, directive, span) <==> FunctionStart(toks, qualifiers, directive, span)
  {
    hide LinkageKind, IsFunctionQualifier;
    forall i: nat ensures QualifierAt(toks, i) <==> LinkageKind(TokenAt(toks, i).kind) {
      LinkageKinds(TokenAt(toks, i).kind);
    }
  }

  lemma EndsItemsIs(kind: TokenKind)
    ensures EndsItems(kind, 0) <==> kind.Eof?
    ensures forall level :: level > 0 ==>
      (EndsItems(kind, level) <==> kind.RBrace? || kind.Eof? || IsFunctionOrModuleBoundary(kind))
  {
    hide IsFunctionOrModuleBoundary, AfterBodyKind;
    AfterBodyKinds(kind);
  }

  /** The item is laid out over its extent: its own tokens stand there, and its productions accept just their runs. */
  ghost predicate Written(f: Productions, toks: seq<PtxToken>, item: CstItem, level: nat)
    decreases item
  {
    match item
    case Produced(p, span) =>
      var at := ProducedFrom(toks, p, span.first);
      && Begins(toks, p, span.first, level)
      && (p.VariableDeclaration? ==> SpaceKind(TokenAt(toks, at).kind))
      && f(p, toks, at) == Accepted(span.last)
    case Label(n, c) =>
      && level > 0 && c == n + 1 && TokenAt(toks, n).kind.Ident? && TokenAt(toks, c).kind.Colon?
      && !LabelledKind(TokenAt(toks, c + 1).kind)
    case Recovered(_) => false
    case Section(s) =>
      var r := ParseSection(toks, s.span.first);
      && level == 0 && TokenAt(toks, s.span.first).kind.DotSection?
      && r.Parsed? && r.value.section == s && r.pos == s.span.last
    case Prototype(qs, d, t, span) =>
      && level == 0 && Headed(toks, qs, d, span) && TokenAt(toks, d).kind.DotFunc?
      && f(FunctionHeader, toks, d + 1) == Accepted(t) && TokenAt(toks, t).kind.Semicolon? && span.last == t + 1
    case Function(qs, d, l, body, r, span) =>
      && level == 0 && Headed(toks, qs, d, span) && (TokenAt(toks, d).kind.DotEntry? || TokenAt(toks, d).kind.DotFunc?)
      && f(FunctionHeader, toks, d + 1) == Accepted(l) && TokenAt(toks, l).kind.LBrace?
      && r.Some? && TokenAt(toks, r.value).kind.RBrace? && span.last == r.value + 1
      && WrittenItems(f, toks, body, l + 1, r.value, 1)
    case Block(l, body, r, span) =>
      && 1 <= level <= 256 && span.first == l && TokenAt(toks, l).kind.LBrace?
      && r.Some? && TokenAt(toks, r.value).kind.RBrace? && span.last == r.value + 1
      && WrittenItems(f, toks, body, l + 1, r.value, level + 1)
  }

  /** The items are laid out one after the other, from `from` up to `limit`. */
  ghost predicate WrittenItems(f: Productions, toks: seq<PtxToken>, items: seq<CstItem>, from: nat, limit: nat, level: nat)
    decreases items
  {
    if items == [] then from == limit
    else
      && Extent(items[0]).Some? && Extent(items[0]).value.first == from && !EndsItems(TokenAt(toks, from).kind, level)
      && Written(f, toks, items[0], level)
      && WrittenItems(f, toks, items[1..], Extent(items[0]).value.last, limit, level)
  }

  // ---- qualifiers -------------------------------------------------------------------------------

  lemma {:induction false} QualifiersEndIs(toks: seq<PtxToken>, first: nat, end: nat)
    requires first <= end && (forall i :: first <= i < end ==> QualifierAt(toks, i)) && !QualifierAt(toks, end)
    ensures QualifiersEnd(toks, first) == end
    decreases end - first
  {
    if first < end {
      QualifiersEndIs(toks, first + 1, end);
    }
  }

  // ---- items that contain no others -------------------------------------------------------------

  /** A body item that is not a block is read exactly where it is laid out. */
  lemma SimpleItemIff(f: Productions, toks: seq<PtxToken>, pos: nat, level: nat, item: CstItem, end: nat)
    requires level > 0 && !TokenAt(toks, pos).kind.LBrace?
    ensures ParseSimpleItem(f, toks, pos) == Parsed(item, end)
      <==> Extent(item) == Some(TokenRange(pos, end)) && Written(f, toks, item, level)
  {
    hide WrittenItems, ParseSection, ParseLabelled;
    var kind := TokenAt(toks, pos).kind;
    assert !QualifierAt(toks, pos) ==> QualifiersEnd(toks, pos) == pos;
    if kind.Ident? {
      LabelledIff(f, toks, pos, level, item, end);
    }
  }

  lemma LabelledIff(f: Productions, toks: seq<PtxToken>, pos: nat, level: nat, item: CstItem, end: nat)
    requires level > 0 && TokenAt(toks, pos).kind.Ident?
    ensures ParseLabelled(f, toks, pos) == Parsed(item, end)
      <==> Extent(item) == Some(TokenRange(pos, end)) && Written(f, toks, item, level)
  {
    hide WrittenItems, ParseSection;
  }

  lemma SimpleModuleItemIff(f: Productions, toks: seq<PtxToken>, start: nat, item: CstItem, end: nat)
    ensures var pos := QualifiersEnd(toks, start);
      var form := ClassifyModuleSource(TokenAt(toks, pos));
      !form.FunctionForm? && !(pos == start && form.SectionForm?) ==>
        (ParseSimpleModuleItem(f, toks, start, pos, form) == Parsed(item, end)
         <==> Extent(item) == Some(TokenRange(start, end)) && Written(f, toks, item, 0))
  {
    hide WrittenItems, ParseSection, Headed, IsVariableStateSpace, SpaceKind, IsModuleDirective, DirectiveKind,
      IsFunctionQualifier, LinkageKind, HeaderKind, LabelledKind;
    var pos := QualifiersEnd(toks, start);
    var first, kind := TokenAt(toks, start).kind, TokenAt(toks, pos).kind;
    QualifiersAre(toks, start);
    assert pos > start ==> QualifierAt(toks, start);
    SpaceKinds(kind);
    SpaceKinds(first);
    DirectiveKinds(kind);
    DirectiveKinds(first);
    LinkageKinds(kind);
    LinkageKinds(first);
    ModuleKindsApart(kind);
    ModuleKindsApart(first);
    if (item.Prototype? || item.Function?) && item.span.first == start && Written(f, toks, item, 0) {
      FunctionIsRead(f, toks, start, item, []);
    }
  }

  // ---- what is laid out is read -----------------------------------------------------------------

  /** Items laid out before a right brace are the whole body, and nothing is reported. */
  lemma {:induction false} BodyIsRead(f: Productions, toks: seq<PtxToken>, pos: nat, items: seq<CstItem>, close: nat,
                                      body: seq<CstItem>, diagnostics: seq<Diagnostic>, depth: nat)
    requires depth <= MAX_NESTED_BLOCK_DEPTH
    requires WrittenItems(f, toks, items, pos, close, depth + 1) && TokenAt(toks, close).kind.RBrace?
    ensures ParseBody(f, toks, pos, body, diagnostics, depth) == BodyParse(body + items, diagnostics, Some(close), close + 1)
    decreases items
  {
    hide Written, ParseBodyItem, IsFunctionOrModuleBoundary;
    if items == [] {
      assert body + items == body;
    } else {
      var next := Extent(items[0]).value.last;
      EndsItemsIs(TokenAt(toks, pos).kind);
      BodyItemIsRead(f, toks, pos, items[0], diagnostics, depth);
      BodyIsRead(f, toks, next, items[1..], close, body + [items[0]], diagnostics, depth);
      assert (body + [items[0]]) + items[1..] == body + items;
    }
  }

  lemma {:induction false} BodyItemIsRead(f: Productions, toks: seq<PtxToken>, pos: nat, item: CstItem,
                                          diagnostics: seq<Diagnostic>, depth: nat)
    requires depth <= MAX_NESTED_BLOCK_DEPTH
    requires Written(f, toks, item, depth + 1) && Extent(item).Some? && Extent(item).value.first == pos
    ensures ParseBodyItem(f, toks, pos, diagnostics, depth) == ItemParse(Parsed(item, Extent(item).value.last), diagnostics)
    decreases item
  {
    hide WrittenItems, ParseBody, ParseSimpleItem, ParseSection;
    var end := Extent(item).value.last;
    if item.Block? {
      BodyIsRead(f, toks, pos + 1, item.body, item.rightBrace.value, [], diagnostics, depth + 1);
      assert [] + item.body == item.body;
    } else {
      assert !TokenAt(toks, pos).kind.LBrace?;
      assert Extent(item).value == TokenRange(pos, end);
      SimpleItemIff(f, toks, pos, depth + 1, item, end);
    }
  }

  lemma FunctionIsRead(f: Productions, toks: seq<PtxToken>, start: nat, item: CstItem, diagnostics: seq<Diagnostic>)
    requires Written(f, toks, item, 0) && (item.Prototype? || item.Function?) && item.span.first == start
    ensures QualifiersEnd(toks, start) == item.directive && ClassifyModuleSource(TokenAt(toks, item.directive)).FunctionForm?
    ensures ParseFunction(f, toks, start, item.directive, diagnostics) == ItemParse(Parsed(item, item.span.last), diagnostics)
  {
    hide WrittenItems, ParseBody;
    assert !QualifierAt(toks, item.directive);
    QualifiersEndIs(toks, start, item.directive);
    if item.Function? {
      BodyIsRead(f, toks, item.leftBrace + 1, item.body, item.rightBrace.value, [], diagnostics, 0);
      assert [] + item.body == item.body;
    }
  }

  /** The error in a section's payload, if there is one; other items have no payload. */
  function PayloadError(toks: seq<PtxToken>, item: CstItem): seq<Diagnostic> {
    if !item.Section? then []
    else
      match ParseSection(toks, item.section.span.first)
      case Failed(_, _) => []
      case Parsed(p, _) => if p.payloadError.Some? then [p.payloadError.value] else []
  }

  function PayloadErrors(toks: seq<PtxToken>, items: seq<CstItem>): seq<Diagnostic> {
    if items == [] then [] else PayloadError(toks, items[0]) + PayloadErrors(toks, items[1..])
  }

  /** A module item is read where it is laid out, and just its payload error is reported with it. */
  lemma ModuleItemIsRead(f: Productions, toks: seq<PtxToken>, start: nat, item: CstItem, diagnostics: seq<Diagnostic>)
    requires Written(f, toks, item, 0) && Extent(item).Some? && Extent(item).value.first == start
    ensures ParseModuleItem(f, toks, start, diagnostics)
      == ItemParse(Parsed(item, Extent(item).value.last), diagnostics + PayloadError(toks, item))
  {
    hide WrittenItems, ParseFunction, ParseSection, ParseSimpleModuleItem;
    var end := Extent(item).value.last;
    if item.Prototype? || item.Function? {
      FunctionIsRead(f, toks, start, item, diagnostics);
    } else if item.Section? {
      assert QualifiersEnd(toks, start) == start;
    } else {
      assert Extent(item).value == TokenRange(start, end);
      NoFunction(f, toks, start, item);
      SimpleModuleItemIff(f, toks, start, item, end);
    }
  }

  lemma NoFunction(f: Productions, toks: seq<PtxToken>, start: nat, item: CstItem)
    requires Written(f, toks, item, 0) && item.Produced? && item.span.first == start
    ensures var pos := QualifiersEnd(toks, start);
      var form := ClassifyModuleSource(TokenAt(toks, pos)); !form.FunctionForm? && !(pos == start && form.SectionForm?)
  {
    QualifiersAre(toks, start);
  }

  lemma {:induction false} ItemsAreRead(f: Productions, toks: seq<PtxToken>, pos: nat, more: seq<CstItem>, end: nat,
                                        items: seq<CstItem>, diagnostics: seq<Diagnostic>)
    requires WrittenItems(f, toks, more, pos, end, 0) && TokenAt(toks, end).kind.Eof?
    ensures var r := ParseItems(f, toks, pos, items, diagnostics);
      r == ModuleParse(items + more, diagnostics + PayloadErrors(toks, more), end)
    decreases more
  {
    hide Written, ParseModuleItem, PayloadError;
    if more == [] {
      assert items + more == items && diagnostics + [] == diagnostics;
    } else {
      ModuleItemIsRead(f, toks, pos, more[0], diagnostics);
      var parsed := ParseModuleItem(f, toks, pos, diagnostics);
      ItemsAreRead(f, toks, parsed.item.pos, more[1..], end, items + [more[0]], parsed.diagnostics);
      assert (items + [more[0]]) + more[1..] == items + more;
      assert (diagnostics + PayloadError(toks, more[0])) + PayloadErrors(toks, more[1..])
        == diagnostics + PayloadErrors(toks, more);
    }
  }

  // ---- what is read without recovery is laid out ------------------------------------------------

  lemma {:induction false} ReadBodyIsWritten(f: Productions, toks: seq<PtxToken>, pos: nat, body: seq<CstItem>,
                                             diagnostics: seq<Diagnostic>, depth: nat)
    requires AllUnrecovered(ParseBody(f, toks, pos, body, diagnostics, depth).body)
    ensures var r := ParseBody(f, toks, pos, body, diagnostics, depth);
      && body <= r.body && r.rightBrace.Some? && TokenAt(toks, r.rightBrace.value).kind.RBrace?
      && r.pos == r.rightBrace.value + 1
      && WrittenItems(f, toks, r.body[|body|..], pos, r.rightBrace.value, depth + 1)
    decreases Remaining(toks, pos), 2
  {
    hide Written, ParseBodyItem, IsFunctionOrModuleBoundary, Unrecovered, Recover, AllUnrecovered, MissingBrace;
    var r, kind := ParseBody(f, toks, pos, body, diagnostics, depth), TokenAt(toks, pos).kind;
    EndsItemsIs(kind);
    if kind.RBrace? {
      assert r.body[|body|..] == [];
    } else if kind.Eof? || IsFunctionOrModuleBoundary(kind) {
      ShowMissingBrace(body, diagnostics, pos);
    } else {
      var parsed := ParseBodyItem(f, toks, pos, diagnostics, depth);
      if parsed.item.Parsed? {
        var more := body + [parsed.item.value];
        ReadBodyIsWritten(f, toks, parsed.item.pos, more, parsed.diagnostics, depth);
        assert r.body[|body|] == more[|body|] && r.body[|body|..][1..] == r.body[|more|..];
        OneUnrecovered(r.body, |body|);
        ReadItemIsWritten(f, toks, pos, diagnostics, depth);
        assert body == more[..|body|];
      } else {
        BodyRecoveryShows(f, toks, pos, body, diagnostics, depth);
      }
    }
  }

  lemma OneUnrecovered(items: seq<CstItem>, i: nat)
    requires AllUnrecovered(items) && i < |items|
    ensures Unrecovered(items[i])
  {
    hide Unrecovered;
  }

  /** A refused body item leaves its marks in the body. */
  lemma BodyRecoveryShows(f: Productions, toks: seq<PtxToken>, pos: nat, body: seq<CstItem>, diagnostics: seq<Diagnostic>,
                          depth: nat)
    requires var kind := TokenAt(toks, pos).kind; !kind.RBrace? && !kind.Eof? && !IsFunctionOrModuleBoundary(kind)
    requires ParseBodyItem(f, toks, pos, diagnostics, depth).item.Failed?
    ensures !AllUnrecovered(ParseBody(f, toks, pos, body, diagnostics, depth).body)
  {
    hide ParseBodyItem, IsFunctionOrModuleBoundary, Unrecovered, Recover, AllUnrecovered, MissingBrace, AsItems, OnlyPayload;
    var r, parsed := ParseBody(f, toks, pos, body, diagnostics, depth), ParseBodyItem(f, toks, pos, diagnostics, depth);
    var d, at := parsed.item.diagnostic, parsed.item.pos;
    var recovery := Recover(toks, pos, at, d, FunctionBody);
    var more, all := body + AsItems(recovery.nodes), parsed.diagnostics + [d];
    BodyRecoveryAdvances(f, toks, pos, diagnostics, depth);
    RecoveryTiles(toks, pos, at, d, FunctionBody);
    if BodyGoesOn(recovery.stop) {
      BodyShowsRecovery(f, toks, recovery.pos, more, all, depth);
      Prefixes(more, all, r.body, r.diagnostics);
    } else {
      ShowMissingBrace(more, all, recovery.pos);
    }
    ShowRecovery(body, diagnostics, recovery.nodes, d, r.body, r.diagnostics);
  }

  lemma {:induction false} ReadItemIsWritten(f: Productions, toks: seq<PtxToken>, pos: nat, diagnostics: seq<Diagnostic>,
                                             depth: nat)
    requires var r := ParseBodyItem(f, toks, pos, diagnostics, depth).item; r.Parsed? && Unrecovered(r.value)
    ensures var r := ParseBodyItem(f, toks, pos, diagnostics, depth).item;
      Extent(r.value) == Some(TokenRange(pos, r.pos)) && Written(f, toks, r.value, depth + 1)
    decreases Remaining(toks, pos), 1
  {
    hide WrittenItems, ParseBody, ParseSimpleItem, ParseSection;
    var r := ParseBodyItem(f, toks, pos, diagnostics, depth).item;
    if TokenAt(toks, pos).kind.LBrace? {
      var inside := ParseBody(f, toks, pos + 1, [], diagnostics, depth + 1);
      ReadBodyIsWritten(f, toks, pos + 1, [], diagnostics, depth + 1);
      assert inside.body[0..] == inside.body;
    } else {
      SimpleItemIff(f, toks, pos, depth + 1, r.value, r.pos);
    }
  }

  lemma QualifiersHead(toks: seq<PtxToken>, start: nat, pos: nat, span: TokenRange)
    requires start <= pos && span.first == start && forall i :: start <= i < pos ==> QualifierAt(toks, i)
    ensures Headed(toks, Run(start, pos), pos, span)
  {
    HeadedStarts(toks, Run(start, pos), pos, span);
  }

  lemma ReadFunctionIsWritten(f: Productions, toks: seq<PtxToken>, start: nat, pos: nat, diagnostics: seq<Diagnostic>)
    requires start <= pos && forall i :: start <= i < pos ==> QualifierAt(toks, i)
    requires var r := ParseFunction(f, toks, start, pos, diagnostics).item; r.Parsed? && Unrecovered(r.value)
    ensures var r := ParseFunction(f, toks, start, pos, diagnostics).item;
      Extent(r.value) == Some(TokenRange(start, r.pos)) && Written(f, toks, r.value, 0)
  {
    hide WrittenItems, ParseBody, Headed, FunctionStart, QualifierAt;
    var header := f(FunctionHeader, toks, pos + 1);
    var item := ParseFunction(f, toks, start, pos, diagnostics).item.value;
    if item.Prototype? || item.Function? {
      QualifiersHead(toks, start, pos, item.span);
    }
    if TokenAt(toks, header.end).kind.LBrace? {
      var inside := ParseBody(f, toks, header.end + 1, [], diagnostics, 0);
      ReadBodyIsWritten(f, toks, header.end + 1, [], diagnostics, 0);
      assert inside.body[0..] == inside.body;
    }
  }

  lemma ReadModuleItemIsWritten(f: Productions, toks: seq<PtxToken>, start: nat, diagnostics: seq<Diagnostic>)
    requires var r := ParseModuleItem(f, toks, start, diagnostics).item; r.Parsed? && Unrecovered(r.value)
    ensures var r := ParseModuleItem(f, toks, start, diagnostics).item;
      Extent(r.value) == Some(TokenRange(start, r.pos)) && Written(f, toks, r.value, 0)
  {
    hide WrittenItems, ParseFunction, ParseSection, ParseSimpleModuleItem, SectionFaithful;
    var pos, r := QualifiersEnd(toks, start), ParseModuleItem(f, toks, start, diagnostics).item;
    var form := ClassifyModuleSource(TokenAt(toks, pos));
    QualifiersAre(toks, start);
    if form.FunctionForm? {
      ReadFunctionIsWritten(f, toks, start, pos, diagnostics);
    } else if pos == start && form.SectionForm? {
      SectionIsCovered(toks, pos);
    } else {
      SimpleModuleItemIff(f, toks, start, r.value, r.pos);
    }
  }

  lemma {:induction false} ReadItemsAreWritten(f: Productions, toks: seq<PtxToken>, pos: nat, items: seq<CstItem>,
                                               diagnostics: seq<Diagnostic>)
    requires AllUnrecovered(ParseItems(f, toks, pos, items, diagnostics).items)
    ensures var r := ParseItems(f, toks, pos, items, diagnostics);
      items <= r.items && TokenAt(toks, r.pos).kind.Eof? && WrittenItems(f, toks, r.items[|items|..], pos, r.pos, 0)
    decreases Remaining(toks, pos)
  {
    hide Written, ParseModuleItem, Unrecovered, Recover, AllUnrecovered, AsItems, OnlyPayload, ShowAlike;
    var r := ParseItems(f, toks, pos, items, diagnostics);
    if TokenAt(toks, pos).kind.Eof? {
      assert r.items[|items|..] == [];
    } else {
      var parsed := ParseModuleItem(f, toks, pos, diagnostics);
      if parsed.item.Parsed? {
        var more := items + [parsed.item.value];
        ReadItemsAreWritten(f, toks, parsed.item.pos, more, parsed.diagnostics);
        assert r.items[|items|] == more[|items|] && r.items[|items|..][1..] == r.items[|more|..];
        OneUnrecovered(r.items, |items|);
        ReadModuleItemIsWritten(f, toks, pos, diagnostics);
        assert items == more[..|items|];
      } else {
        ModuleRecoveryShows(f, toks, pos, items, diagnostics);
      }
    }
  }

  /** A refused module item leaves its marks in the module. */
  lemma ModuleRecoveryShows(f: Productions, toks: seq<PtxToken>, pos: nat, items: seq<CstItem>, diagnostics: seq<Diagnostic>)
    requires !TokenAt(toks, pos).kind.Eof? && ParseModuleItem(f, toks, pos, diagnostics).item.Failed?
    ensures !AllUnrecovered(ParseItems(f, toks, pos, items, diagnostics).items)
  {
    hide ParseModuleItem, Unrecovered, Recover, AllUnrecovered, AsItems, OnlyPayload;
    var r, parsed := ParseItems(f, toks, pos, items, diagnostics), ParseModuleItem(f, toks, pos, diagnostics);
    var d, at := parsed.item.diagnostic, parsed.item.pos;
    var recovery := Recover(toks, pos, at, d, ModuleLevel);
    ModuleRecoveryAdvances(toks, pos, at, d);
    RecoveryTiles(toks, pos, at, d, ModuleLevel);
    ItemsShowRecovery(f, toks, recovery.pos, items + AsItems(recovery.nodes), parsed.diagnostics + [d]);
    Prefixes(items + AsItems(recovery.nodes), parsed.diagnostics + [d], r.items, r.diagnostics);
    ShowRecovery(items, diagnostics, recovery.nodes, d, r.items, r.diagnostics);
  }

  // ---- the main results -------------------------------------------------------------------------

  lemma {:induction false} PayloadErrorsAre(toks: seq<PtxToken>, items: seq<CstItem>)
    ensures OnlyPayload(PayloadErrors(toks, items))
  {
    hide ParseSection;
    if items != [] {
      PayloadErrorsAre(toks, items[1..]);
      if items[0].Section? {
        PayloadErrorIsPayload(toks, items[0].section.span.first);
      }
    }
  }

  /**
   * A module reads as these items, with no report but of section payloads, exactly when they are laid out up to its end;
   * and then the payload errors of its sections are reported, in order.
   */
  lemma ModuleReadsExactlyWhen(f: Productions, toks: seq<PtxToken>, first: nat, items: seq<CstItem>)
    ensures var r := ParseItems(f, toks, first, [], []);
      r.items == items && OnlyPayload(r.diagnostics)
      <==> exists end: nat :: TokenAt(toks, end).kind.Eof? && WrittenItems(f, toks, items, first, end, 0)
    ensures var r := ParseItems(f, toks, first, [], []);
      OnlyPayload(r.diagnostics) ==> r.diagnostics == PayloadErrors(toks, r.items)
  {
    hide ParseItems, Written, AllUnrecovered, WrittenItems, PayloadErrors, OnlyPayload;
    PayloadErrorsAre(toks, items);
    var r := ParseItems(f, toks, first, [], []);
    RecoveryIsReported(f, toks, first);
    if OnlyPayload(r.diagnostics) {
      ReadItemsAreWritten(f, toks, first, [], []);
      assert r.items[0..] == r.items;
      ItemsAreRead(f, toks, first, r.items, r.pos, [], []);
      assert [] + PayloadErrors(toks, r.items) == PayloadErrors(toks, r.items);
    }
    if end: nat :| TokenAt(toks, end).kind.Eof? && WrittenItems(f, toks, items, first, end, 0) {
      ItemsAreRead(f, toks, first, items, end, [], []);
      assert [] + items == items && [] + PayloadErrors(toks, items) == PayloadErrors(toks, items);
    }
  }

  /** A body reads as these items and closes there, with nothing reported, exactly when they are laid out up to the brace. */
  lemma BodyReadsExactlyWhen(f: Productions, toks: seq<PtxToken>, pos: nat, items: seq<CstItem>, close: nat, depth: nat)
    requires depth <= MAX_NESTED_BLOCK_DEPTH
    ensures ParseBody(f, toks, pos, [], [], depth) == BodyParse(items, [], Some(close), close + 1)
      <==> TokenAt(toks, close).kind.RBrace? && WrittenItems(f, toks, items, pos, close, depth + 1)
  {
    hide ParseBody, Written, WrittenItems;
    var r := ParseBody(f, toks, pos, [], [], depth);
    if r == BodyParse(items, [], Some(close), close + 1) {
      BodyShowsRecovery(f, toks, pos, [], [], depth);
      ReadBodyIsWritten(f, toks, pos, [], [], depth);
      assert r.body[0..] == r.body;
    }
    if TokenAt(toks, close).kind.RBrace? && WrittenItems(f, toks, items, pos, close, depth + 1) {
      BodyIsRead(f, toks, pos, items, close, [], [], depth);
      assert [] + items == items;
    }
  }
}
