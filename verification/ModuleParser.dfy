/** The body and module drivers over the token buffer. */
module ModuleParser {
  import opened Common
  import opened Tokens
  import opened Lexer
  import opened ConstantGrammar
  import opened SectionGrammar
  import opened SectionParser
  import opened Recovering
  import opened SourceTree
  import opened Drivers
  import opened DriverTheorems
  import opened TokenBuffer

  /** An abstract production: consume the run it decides on. */
  method RunProduction(parser: PtxCstParser, f: Productions, p: Production) returns (outcome: Outcome)
    requires parser.Valid()
    modifies parser, parser.lexer
    ensures parser.Valid() && outcome == f(p, parser.stream, old(parser.Position())) && parser.Position() == outcome.end
    ensures OutcomeFits(p, old(parser.Position()), outcome)
  {
    hide PtxCstParser.Valid, PtxCstParser.Position;
    var pos := parser.Peek();
    outcome := f(p, parser.stream, pos);
    assert OutcomeFits(p, pos, outcome);
    while pos < outcome.end
      invariant parser.Valid() && pos == parser.Position() <= outcome.end
      decreases outcome.end - pos
    {
      var _ := parser.Consume();
      pos := pos + 1;
    }
  }

  /** An item that one production covers, from `start` on. */
  method RunItem(parser: PtxCstParser, f: Productions, p: Production, start: nat) returns (r: Parse<CstItem>)
    requires parser.Valid() && start <= parser.Position()
    modifies parser, parser.lexer
    ensures parser.Valid() && r == Produce(f, p, parser.stream, start, old(parser.Position())) && parser.Position() == r.pos
  {
    hide PtxCstParser.Valid, PtxCstParser.Position;
    var outcome := RunProduction(parser, f, p);
    match outcome
    case Accepted(end) => r := Parsed(Produced(p, TokenRange(start, end)), end);
    case Rejected(d, end) => r := Failed(d, end);
  }

  method AppendNodes(items: seq<CstItem>, nodes: seq<RecoveryNode>) returns (more: seq<CstItem>)
    ensures more == items + AsItems(nodes)
  {
    more := items;
    for i := 0 to |nodes|
      invariant more == items + AsItems(nodes[..i])
    {
      assert nodes[..i + 1][..i] == nodes[..i];
      more := more + [Recovered(nodes[i])];
    }
    assert nodes[..|nodes|] == nodes;
  }

  // ---- bodies -----------------------------------------------------------------------------------

  /** Equals `ParseBody` from an empty body: reads items after an opening brace and consumes the closing one. */
  method ParseBodyItems(parser: PtxCstParser, f: Productions, diagnostics: seq<Diagnostic>,
                        depth: nat) returns (r: BodyParse)
    requires parser.Valid()
    modifies parser, parser.lexer
    ensures parser.Valid() && parser.Position() == r.pos
    ensures r == ParseBody(f, parser.stream, old(parser.Position()), [], diagnostics, depth)
    decreases Remaining(parser.stream, parser.Position()), 2
  {
    hide PtxCstParser.Valid, PtxCstParser.Position, ParseBodyItem, Recover, IsFunctionOrModuleBoundary, AsItems;
    var body, reported := [], diagnostics;
    var kind := parser.PeekKind();
    ghost var start := parser.Position();
    while !kind.RBrace?
      invariant parser.Valid() && kind == TokenAt(parser.stream, parser.Position()).kind && start <= parser.Position()
      invariant ParseBody(f, parser.stream, parser.Position(), body, reported, depth)
        == ParseBody(f, parser.stream, start, [], diagnostics, depth)
      decreases Remaining(parser.stream, parser.Position())
    {
      var first := parser.Peek();
      if kind.Eof? || IsFunctionOrModuleBoundary(kind) {
        return MissingBrace(body, reported, first);
      }
      var parsed := ParseBodyItemTree(parser, f, reported, depth);
      reported := parsed.diagnostics;
      if parsed.item.Parsed? {
        body := body + [parsed.item.value];
      } else {
        var d := parsed.item.diagnostic;
        reported := reported + [d];
        var recovery := RecoverItem(parser, first, d, FunctionBody);
        body := AppendNodes(body, recovery.nodes);
        if !BodyGoesOn(recovery.stop) {
          return MissingBrace(body, reported, recovery.pos);
        }
      }
      kind := parser.PeekKind();
    }
    var rightBrace := parser.Consume();
    return BodyParse(body, reported, Some(rightBrace), rightBrace + 1);
  }

  /** Equals `ParseBodyItem`: one item, or a refusal that leaves the parser where the refusal arose. */
  method ParseBodyItemTree(parser: PtxCstParser, f: Productions, diagnostics: seq<Diagnostic>, depth: nat)
    returns (r: ItemParse)
    requires parser.Valid()
    modifies parser, parser.lexer
    ensures parser.Valid() && parser.Position() == r.item.pos
    ensures r == ParseBodyItem(f, parser.stream, old(parser.Position()), diagnostics, depth)
    decreases Remaining(parser.stream, parser.Position()), 1
  {
    hide PtxCstParser.Valid, PtxCstParser.Position, ParseBody, ParseSimpleItem;
    var kind := parser.PeekKind();
    if kind.LBrace? {
      if depth >= MAX_NESTED_BLOCK_DEPTH {
        var at := parser.Peek();
        return ItemParse(Failed(DepthLimit(at), at), diagnostics);
      }
      r := ParseBlock(parser, f, diagnostics, depth + 1);
      return r;
    }
    var item := ParseSimpleItemTree(parser, f);
    return ItemParse(item, diagnostics);
  }

  /** The block branch of `ParseBodyItem`: its extent runs from the brace to where its body ended. */
  method ParseBlock(parser: PtxCstParser, f: Productions, diagnostics: seq<Diagnostic>, depth: nat) returns (r: ItemParse)
    requires parser.Valid() && TokenAt(parser.stream, parser.Position()).kind.LBrace?
    requires 0 < depth <= MAX_NESTED_BLOCK_DEPTH
    modifies parser, parser.lexer
    ensures parser.Valid() && parser.Position() == r.item.pos
    ensures r == ParseBodyItem(f, parser.stream, old(parser.Position()), diagnostics, depth - 1)
    decreases Remaining(parser.stream, parser.Position()), 0
  {
    hide PtxCstParser.Valid, PtxCstParser.Position, ParseBody, ParseSimpleItem;
    var leftBrace := parser.Consume();
    var inside := ParseBodyItems(parser, f, diagnostics, depth);
    return ItemParse(Parsed(Block(leftBrace, inside.body, inside.rightBrace, TokenRange(leftBrace, inside.pos)), inside.pos),
                     inside.diagnostics);
  }

  method ParseSimpleItemTree(parser: PtxCstParser, f: Productions) returns (r: Parse<CstItem>)
    requires parser.Valid()
    modifies parser, parser.lexer
    ensures parser.Valid() && parser.Position() == r.pos && r == ParseSimpleItem(f, parser.stream, old(parser.Position()))
  {
    hide PtxCstParser.Valid, PtxCstParser.Position, Produce, ParseLabelled, IsVariableStateSpace, IsKernelResourceDirective,
      NeedsLabel;
    var start := parser.Peek();
    var kind := parser.PeekKind();
    if IsVariableStateSpace(kind) {
      r := RunItem(parser, f, VariableDeclaration, start);
    } else if kind.AtAtDwarf? {
      r := RunItem(parser, f, LegacyDwarf, start);
    } else if kind.DotLoc? {
      r := RunItem(parser, f, Loc, start);
    } else if kind.DotPragma? {
      r := RunItem(parser, f, Pragma, start);
    } else if IsKernelResourceDirective(kind) {
      r := Failed(Malformed(start), start);
    } else if kind.Ident? {
      r := ParseLabelledTree(parser, f);
    } else if NeedsLabel(kind) {
      r := Failed(Malformed(start), start);
    } else {
      r := RunItem(parser, f, Instruction, start);
    }
  }

  method ParseLabelledTree(parser: PtxCstParser, f: Productions) returns (r: Parse<CstItem>)
    requires parser.Valid()
    modifies parser, parser.lexer
    ensures parser.Valid() && parser.Position() == r.pos && r == ParseLabelled(f, parser.stream, old(parser.Position()))
  {
    hide PtxCstParser.Valid, PtxCstParser.Position, Produce;
    var firstToken := parser.Consume();
    var kind := parser.PeekKind();
    if !kind.Colon? {
      r := RunItem(parser, f, InstructionTail, firstToken);
      return r;
    }
    var colon := parser.Consume();
    kind := parser.PeekKind();
    if kind.DotCallPrototype? {
      r := RunItem(parser, f, CallPrototype, firstToken);
    } else if kind.DotCallTargets? {
      r := RunItem(parser, f, CallTargets, firstToken);
    } else if kind.DotBranchTargets? {
      r := RunItem(parser, f, BranchTargets, firstToken);
    } else {
      r := Parsed(Label(firstToken, colon), colon + 1);
    }
  }

  // ---- functions and modules --------------------------------------------------------------------

  /** Equals `ParseFunction`: after the header a semicolon makes a prototype and a brace begins a body. */
  method ParseFunctionTree(parser: PtxCstParser, f: Productions, qualifiers: seq<nat>, start: nat,
                           diagnostics: seq<Diagnostic>)
    returns (r: ItemParse)
    requires parser.Valid() && start <= parser.Position() && qualifiers == Run(start, parser.Position())
    modifies parser, parser.lexer
    ensures parser.Valid() && parser.Position() == r.item.pos
    ensures r == ParseFunction(f, parser.stream, start, old(parser.Position()), diagnostics)
  {
    hide PtxCstParser.Valid, PtxCstParser.Position, ParseBody, Run;
    var kind := parser.PeekKind();
    var directive := parser.Consume();
    if !IsFunctionDirective(kind) {
      return ItemParse(Failed(Malformed(directive), directive + 1), diagnostics);
    }
    var header := RunProduction(parser, f, FunctionHeader);
    if header.Rejected? {
      return ItemParse(Failed(header.diagnostic, header.end), diagnostics);
    }
    var next := parser.PeekKind();
    if next.Semicolon? {
      var terminator := parser.Consume();
      if !kind.DotFunc? {
        return ItemParse(Failed(Malformed(terminator), terminator + 1), diagnostics);
      }
      return ItemParse(Parsed(Prototype(qualifiers, directive, terminator, TokenRange(start, terminator + 1)), terminator + 1),
                       diagnostics);
    }
    if !next.LBrace? {
      return ItemParse(Failed(Malformed(header.end), header.end), diagnostics);
    }
    var leftBrace := parser.Consume();
    var inside := ParseBodyItems(parser, f, diagnostics, 0);
    return ItemParse(Parsed(Function(qualifiers, directive, leftBrace, inside.body, inside.rightBrace,
                                     TokenRange(start, inside.pos)), inside.pos), inside.diagnostics);
  }

  method ParseQualifiers(parser: PtxCstParser) returns (qualifiers: seq<nat>)
    requires parser.Valid()
    modifies parser, parser.lexer
    ensures parser.Valid() && parser.Position() == QualifiersEnd(parser.stream, old(parser.Position()))
    ensures qualifiers == Run(old(parser.Position()), parser.Position())
  {
    hide PtxCstParser.Valid, PtxCstParser.Position;
    qualifiers := [];
    ghost var start := parser.Position();
    var token := parser.PeekToken();
    while IsFunctionQualifier(token.kind)
      invariant parser.Valid() && token == TokenAt(parser.stream, parser.Position())
      invariant start <= parser.Position() && qualifiers == Run(start, parser.Position())
      invariant QualifiersEnd(parser.stream, parser.Position()) == QualifiersEnd(parser.stream, start)
      decreases Remaining(parser.stream, parser.Position())
    {
      var qualifier := parser.Consume();
      qualifiers := qualifiers + [qualifier];
      token := parser.PeekToken();
    }
  }

  method ParseModuleItemTree(parser: PtxCstParser, f: Productions, diagnostics: seq<Diagnostic>) returns (r: ItemParse)
    requires parser.Valid()
    modifies parser, parser.lexer
    ensures parser.Valid() && parser.Position() == r.item.pos
    ensures r == ParseModuleItem(f, parser.stream, old(parser.Position()), diagnostics)
  {
    hide PtxCstParser.Valid, PtxCstParser.Position, ParseFunction, ParseSection, ParseSimpleModuleItem, QualifiersEnd, Run,
      ClassifyModuleSource;
    var start := parser.Peek();
    var qualifiers := ParseQualifiers(parser);
    var token := parser.PeekToken();
    var pos := parser.Peek();
    var form := ClassifyModuleSource(token);
    if form.FunctionForm? {
      r := ParseFunctionTree(parser, f, qualifiers, start, diagnostics);
    } else if pos == start && form.SectionForm? {
      var section := ParseSectionDirective(parser);
      match section
      case Failed(d, at) => r := ItemParse(Failed(d, at), diagnostics);
      case Parsed(p, next) =>
        var payload := if p.payloadError.Some? then [p.payloadError.value] else [];
        r := ItemParse(Parsed(Section(p.section), next), diagnostics + payload);
    } else {
      var item := ParseSimpleModuleItemTree(parser, f, start, form);
      r := ItemParse(item, diagnostics);
    }
  }

  method ParseSimpleModuleItemTree(parser: PtxCstParser, f: Productions, start: nat, form: ModuleSourceForm)
    returns (r: Parse<CstItem>)
    requires parser.Valid() && start <= parser.Position()
    modifies parser, parser.lexer
    ensures parser.Valid() && parser.Position() == r.pos
    ensures r == ParseSimpleModuleItem(f, parser.stream, start, old(parser.Position()), form)
  {
    hide PtxCstParser.Valid, PtxCstParser.Position, Produce;
    var pos := parser.Peek();
    var kind := parser.PeekKind();
    if pos == start && form.PragmaForm? {
      r := RunItem(parser, f, Pragma, start);
    } else if pos == start && form.LegacyDwarfForm? {
      r := RunItem(parser, f, LegacyDwarf, start);
    } else if pos == start && form.AliasForm? {
      r := RunItem(parser, f, Alias, start);
    } else if pos == start && form.DirectiveForm? {
      r := RunItem(parser, f, ModuleDirective, start);
    } else if form.VariableForm? {
      r := RunItem(parser, f, VariableDeclaration, start);
    } else {
      if kind.Ident? {
        var _ := parser.Consume();
        var next := parser.PeekKind();
        if next.Colon? {
          var _ := parser.Consume();
        }
      }
      var at := parser.Peek();
      r := Failed(Malformed(at), at);
    }
  }

  datatype CstModule = CstModule(items: seq<CstItem>, span: TokenRange)

  datatype CstFile = CstFile(tokens: seq<PtxToken>, root: CstModule)

  datatype ParseResult = ParseResult(value: Option<CstFile>, diagnostics: seq<Diagnostic>)

  /** A buffer that has reached the end of the stream spells out the whole source. */
  lemma ReachedEnd(parser: PtxCstParser, end: nat)
    requires parser.Valid() && TokenAt(parser.stream, end).kind.Eof? && end < |parser.tokens|
    ensures TokensText(parser.tokens) == RawText(parser.lexer.raw, 0)
  {
    hide LexFrom, TokensText, RawText, Continues;
    EndIsLast(parser.lexer.raw, 0, []);
    BufferText(parser.stream, parser.tokens);
    LexingIsLossless(parser.lexer.raw, 0, []);
    NoTriviaText();
  }

  /** All that a parsed module guarantees, whatever the token stream. */
  ghost predicate ModuleAccounted(toks: seq<PtxToken>, m: CstModule, diagnostics: seq<Diagnostic>) {
    && m.items != [] && Tiles(m.items, m.span.first, m.span.last) && TokenAt(toks, m.span.last).kind.Eof?
    && AllSound(toks, m.items, 0) && DeepestNesting(m.items) <= MAX_NESTED_BLOCK_DEPTH
    && (AllUnrecovered(m.items) <==> OnlyPayload(diagnostics))
  }

  /** Equals `ParseItems` from nothing; a nonempty module comes out with everything `ModuleAccounted` says. */
  method ParseModule(parser: PtxCstParser, f: Productions) returns (r: ParseResult)
    requires parser.Valid()
    modifies parser, parser.lexer
    ensures var first := old(parser.Position());
      var parsed := ParseItems(f, parser.stream, first, [], []);
      && (r.value.None? <==> TokenAt(parser.stream, first).kind.Eof?)
      && (r.value.None? ==> r.diagnostics == [Malformed(first)])
      && (r.value.Some? ==>
          && r.diagnostics == parsed.diagnostics
          && r.value.value.root == CstModule(parsed.items, TokenRange(first, parsed.pos))
          && TokensText(r.value.value.tokens) == RawText(parser.lexer.raw, 0))
    ensures r.value.Some? ==> ModuleAccounted(parser.stream, r.value.value.root, r.diagnostics)
  {
    hide PtxCstParser.Valid, PtxCstParser.Position, ParseModuleItem, Recover, AsItems, TokensText, RawText, Tiles, AllSound,
      AllUnrecovered, OnlyPayload, DeepestNesting, Produce;
    var items, diagnostics := [], [];
    var first := parser.Peek();
    var last := first;
    var kind := parser.PeekKind();
    while !kind.Eof?
      invariant parser.Valid() && kind == TokenAt(parser.stream, parser.Position()).kind
      invariant parser.Position() == (if parser.Position() == first then first else last + 1)
      invariant parser.Position() < |parser.tokens|
      invariant ParseItems(f, parser.stream, parser.Position(), items, diagnostics) == ParseItems(f, parser.stream, first, [], [])
      decreases Remaining(parser.stream, parser.Position())
    {
      var itemFirst := parser.Peek();
      ModuleItemIsCovered(f, parser.stream, itemFirst, diagnostics);
      var parsed := ParseModuleItemTree(parser, f, diagnostics);
      diagnostics := parsed.diagnostics;
      if parsed.item.Parsed? {
        last := Extent(parsed.item.value).value.last - 1;
        items := items + [parsed.item.value];
      } else {
        var d := parsed.item.diagnostic;
        diagnostics := diagnostics + [d];
        ModuleRecoveryAdvances(parser.stream, itemFirst, parsed.item.pos, d);
        RecoveryTiles(parser.stream, itemFirst, parsed.item.pos, d, ModuleLevel);
        var recovery := RecoverItem(parser, itemFirst, d, ModuleLevel);
        items := AppendNodes(items, recovery.nodes);
        if recovery.last.Some? {
          last := recovery.last.value;
        }
      }
      kind := parser.PeekKind();
    }
    ModuleIsCovered(f, parser.stream, first);
    RecoveryIsReported(f, parser.stream, first);
    if items == [] {
      return ParseResult(None, [Malformed(first)]);
    }
    ghost var end := parser.Position();
    ReachedEnd(parser, end);
    return ParseResult(Some(CstFile(parser.tokens, CstModule(items, TokenRange(first, last + 1)))), diagnostics);
  }
}
