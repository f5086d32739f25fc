/** The section parser: its result as a function, what that result covers, and the loops that compute it. */
module SectionParser {
  import opened Common
  import opened Tokens
  import opened ConstantGrammar
  import opened SectionGrammar
  import opened TokenBuffer

  /** Consecutive token ids up to `end`. */
  function Run(first: nat, end: nat): (r: seq<nat>)
    requires first <= end
  {
    seq(end - first, k requires 0 <= k < end - first => first + k)
  }

  datatype SectionDirective = SectionDirective(
    directive: nat, name: nat, leftBrace: nat, payloadTokens: seq<nat>, payload: seq<SectionEntry>,
    rightBrace: nat, terminator: Option<nat>, span: TokenRange)

  /** A section and the payload error that was reported beside it. */
  datatype ParsedSection = ParsedSection(section: SectionDirective, payloadError: Option<Diagnostic>)

  /** The header of a section: its keyword, name and opening brace. */
  function SectionOpening(toks: seq<PtxToken>, pos: nat): (r: Parse<nat>)
    ensures r.pos >= pos + 2
  {
    if !IsIdentifierToken(TokenAt(toks, pos + 1).kind) then Failed(Malformed(pos + 1), pos + 2)
    else Expect(toks, pos + 2, LBrace)
  }

  function ParseSection(toks: seq<PtxToken>, pos: nat): (r: Parse<ParsedSection>)
    ensures r.pos >= pos + 2
  {
    match SectionOpening(toks, pos)
    case Failed(d, at) => Failed(d, at)
    case Parsed(_, first) =>
      match FindClose(toks, first, first)
      case Failed(d, at) => Failed(d, at)
      case Parsed(close, after) =>
        var terminated := TokenAt(toks, after).kind.Semicolon?;
        var (entries, error) := ParseEntries(toks, [], first, close);
        var end := if terminated then after + 1 else after;
        Parsed(ParsedSection(SectionDirective(pos, pos + 1, pos + 2, Run(first, close), entries, close,
                                              if terminated then Some(after) else None, TokenRange(pos, end)), error), end)
  }

  /**
   * A parsed section takes the true matching brace and a semicolon after it, keeps exactly the balanced run between the
   * braces, and without a payload error its entries and stray semicolons tile that run.
   */
  lemma ParsedSectionIsFaithful(toks: seq<PtxToken>, pos: nat)
    requires ParseSection(toks, pos).Parsed?
    ensures var r := ParseSection(toks, pos);
      var s := r.value.section;
      && IsIdentifierToken(TokenAt(toks, s.name).kind) && TokenAt(toks, s.leftBrace).kind.LBrace?
      && s.span == TokenRange(pos, r.pos) && s.leftBrace < s.rightBrace < r.pos
      && Closes(toks, s.leftBrace + 1, s.rightBrace)
      && s.payloadTokens == Run(s.leftBrace + 1, s.rightBrace)
      && NeverNegative(toks, s.leftBrace + 1, s.rightBrace)
      && (if TokenAt(toks, s.rightBrace + 1).kind.Semicolon? then
            s.terminator == Some(s.rightBrace + 1) && r.pos == s.rightBrace + 2
          else s.terminator.None? && r.pos == s.rightBrace + 1)
      && (r.value.payloadError.None? ==> EntriesTile(toks, s.payload, s.leftBrace + 1, s.rightBrace, s.rightBrace))
      && (r.value.payloadError.Some? ==>
          && r.value.payloadError.value.SectionPayload?
          && s.leftBrace < r.value.payloadError.value.at <= s.rightBrace)
  {
    hide BraceBalance, ParseEntries, EntriesTile, StaysInside, FindClose;
    var s := ParseSection(toks, pos).value.section;
    FindCloseSound(toks, pos + 3, pos + 3);
    PayloadIsBalanced(toks, s.leftBrace + 1, s.rightBrace);
    EntriesTileNothing(toks, pos + 3, s.rightBrace);
    PayloadIsTiled(toks, [], pos + 3, pos + 3, s.rightBrace);
  }

  lemma EntriesTileNothing(toks: seq<PtxToken>, pos: nat, end: nat)
    ensures EntriesTile(toks, [], pos, pos, end)
  {
  }

  /** A section parses exactly when its header does and some brace closes its payload, and then it takes that brace. */
  lemma SectionParsesExactlyWhen(toks: seq<PtxToken>, pos: nat, close: nat)
    ensures SectionOpening(toks, pos).Parsed? && Closes(toks, pos + 3, close)
      <==> ParseSection(toks, pos).Parsed? && ParseSection(toks, pos).value.section.rightBrace == close
  {
    hide Closes, FindClose, ParseEntries;
    FindCloseExact(toks, pos + 3, close);
  }

  // ---- the parser -------------------------------------------------------------------------------

  /** Collect the payload up to the brace that closes it, counting the braces it opens. */
  method CollectPayload(parser: PtxCstParser) returns (payload: seq<nat>, r: Parse<nat>)
    requires parser.Valid()
    modifies parser, parser.lexer
    ensures parser.Valid() && parser.Position() == r.pos && |parser.tokens| >= r.pos
    ensures r == FindClose(parser.stream, old(parser.Position()), old(parser.Position()))
    ensures r.Parsed? ==> payload == Run(old(parser.Position()), r.value)
  {
    hide PtxCstParser.Valid, PtxCstParser.Position, IsSectionRecoveryBoundary;
    payload := [];
    ghost var first := parser.Position();
    var braceDepth := 1;
    while braceDepth != 0
      invariant parser.Valid() && braceDepth > 0 && first <= parser.Position()
      invariant payload == Run(first, parser.Position())
      invariant braceDepth == 1 + BraceBalance(parser.stream, first, parser.Position())
      invariant FindClose(parser.stream, first, parser.Position()) == FindClose(parser.stream, first, first)
      decreases Remaining(parser.stream, parser.Position())
    {
      var token := parser.PeekToken();
      var next := parser.Peek();
      if token.kind.Eof? || (braceDepth == 1 && IsSectionRecoveryBoundary(token)) {
        return payload, Failed(Expected(next, RBrace), next);
      }
      var _ := parser.Consume();
      if token.kind.LBrace? {
        braceDepth := braceDepth + 1;
      } else if token.kind.RBrace? {
        braceDepth := braceDepth - 1;
        if braceDepth == 0 {
          return payload, Parsed(next, next + 1);
        }
      }
      payload := payload + [next];
    }
  }

  /** The token that the payload holds at `cursor`. */
  function PayloadToken(parser: PtxCstParser, payload: seq<nat>, cursor: nat): PtxToken
    requires cursor < |payload| && payload[cursor] < |parser.tokens|
    reads parser
  {
    parser.Token(payload[cursor])
  }

  /** The payload run with its tokens buffered. */
  ghost predicate Readable(parser: PtxCstParser, payload: seq<nat>, first: nat, rightBrace: nat)
    reads parser, parser.lexer
  {
    && parser.Valid() && first <= rightBrace && payload == Run(first, rightBrace) && rightBrace < |parser.tokens|
    && forall k :: 0 <= k < |payload| ==>
      payload[k] < |parser.tokens| && PayloadToken(parser, payload, k) == TokenAt(parser.stream, first + k)
  }

  lemma BufferedPayload(parser: PtxCstParser, payload: seq<nat>, first: nat, rightBrace: nat)
    requires parser.Valid() && first <= rightBrace && payload == Run(first, rightBrace) && rightBrace < |parser.tokens|
    ensures Readable(parser, payload, first, rightBrace)
  {
    hide PtxCstParser.Valid, PtxCstParser.Token;
    forall k | 0 <= k < |payload|
      ensures payload[k] < |parser.tokens| && PayloadToken(parser, payload, k) == TokenAt(parser.stream, first + k)
    {
      parser.Buffers(payload[k]);
    }
  }

  lemma PayloadAt(parser: PtxCstParser, payload: seq<nat>, first: nat, rightBrace: nat)
    requires Readable(parser, payload, first, rightBrace)
    ensures |payload| + first == rightBrace
    ensures forall k :: 0 <= k < |payload| ==>
      && payload[k] == first + k < |parser.tokens|
      && PayloadToken(parser, payload, k) == TokenAt(parser.stream, first + k)
  {
    hide PtxCstParser.Valid, PtxCstParser.Token, PayloadToken;
  }

  /** Read an optionally signed integer from the payload. */
  method ReadInteger(parser: PtxCstParser, payload: seq<nat>, ghost first: nat, rightBrace: nat, from: nat)
    returns (r: Parse<SectionInteger>, cursor: nat)
    requires Readable(parser, payload, first, rightBrace) && from <= |payload|
    ensures r == ParseInteger(parser.stream, first + from, rightBrace)
    ensures r.Parsed? ==> from < cursor <= |payload| && r.pos == first + cursor
  {
    hide PtxCstParser.Valid, PtxCstParser.Token;
    cursor := from;
    var begin := if cursor < |payload| then payload[cursor] else rightBrace;
    var sign := None;
    if cursor < |payload| && IsSign(PayloadToken(parser, payload, cursor).kind) {
      sign := Some(payload[cursor]);
      cursor := cursor + 1;
    }
    if cursor >= |payload| || !IsIntegerLiteral(PayloadToken(parser, payload, cursor).kind) {
      var at := if cursor < |payload| then payload[cursor] else rightBrace;
      return Failed(SectionPayload(at), at), cursor;
    }
    var magnitude := payload[cursor];
    cursor := cursor + 1;
    return Parsed(SectionInteger(sign, magnitude, TokenRange(begin, magnitude + 1)), magnitude + 1), cursor;
  }

  /** Read a symbol, a symbol difference, a symbol with an addend, or comma-separated integers. */
  method ReadValue(parser: PtxCstParser, payload: seq<nat>, ghost first: nat, rightBrace: nat, wide: bool, from: nat)
    returns (r: Parse<SectionValue>, cursor: nat)
    requires Readable(parser, payload, first, rightBrace) && from <= |payload|
    ensures r == ParseValue(parser.stream, wide, first + from, rightBrace)
    ensures r.Parsed? ==> from < cursor <= |payload| && r.pos == first + cursor
  {
    hide PtxCstParser.Valid, PtxCstParser.Token, ParseInteger;
    cursor := from;
    if cursor < |payload| && IsIdentifierToken(PayloadToken(parser, payload, cursor).kind) {
      if !wide {
        return Failed(SectionPayload(payload[cursor]), payload[cursor]), cursor;
      }
      var name := payload[cursor];
      cursor := cursor + 1;
      if cursor < |payload| && IsSign(PayloadToken(parser, payload, cursor).kind) {
        var operation := payload[cursor];
        var minus := PayloadToken(parser, payload, cursor).kind.Minus?;
        cursor := cursor + 1;
        if minus && cursor < |payload| && IsIdentifierToken(PayloadToken(parser, payload, cursor).kind) {
          var subtrahend := payload[cursor];
          cursor := cursor + 1;
          return Parsed(Difference(name, operation, subtrahend), subtrahend + 1), cursor;
        }
        var value, after := ReadInteger(parser, payload, first, rightBrace, cursor);
        if value.Failed? {
          return Failed(value.diagnostic, value.pos), cursor;
        }
        return Parsed(Addend(name, operation, value.value), value.pos), after;
      }
      return Parsed(Symbolic(name), name + 1), cursor;
    }
    r, cursor := ReadIntegers(parser, payload, first, rightBrace, wide, cursor);
  }

  method ReadIntegers(parser: PtxCstParser, payload: seq<nat>, ghost first: nat, rightBrace: nat, ghost wide: bool,
                      from: nat)
    returns (r: Parse<SectionValue>, cursor: nat)
    requires Readable(parser, payload, first, rightBrace) && from <= |payload|
    requires !NameAt(parser.stream, first + from, rightBrace)
    ensures r == ParseValue(parser.stream, wide, first + from, rightBrace)
    ensures r.Parsed? ==> from < cursor <= |payload| && r.pos == first + cursor
  {
    hide PtxCstParser.Valid, PtxCstParser.Token, ParseInteger;
    var value, after := ReadInteger(parser, payload, first, rightBrace, from);
    cursor := after;
    if value.Failed? {
      return Failed(value.diagnostic, value.pos), cursor;
    }
    var values := [value.value];
    var last := value.pos;
    while cursor < |payload| && PayloadToken(parser, payload, cursor).kind.Comma?
      invariant from < cursor <= |payload| && last == first + cursor
      invariant ParseIntegers(parser.stream, values, first + cursor, rightBrace)
        == ParseIntegers(parser.stream, [value.value], value.pos, rightBrace)
      decreases |payload| - cursor
    {
      cursor := cursor + 1;
      var next, later := ReadInteger(parser, payload, first, rightBrace, cursor);
      if next.Failed? {
        return Failed(next.diagnostic, next.pos), cursor;
      }
      values := values + [next.value];
      cursor := later;
      last := next.pos;
    }
    return Parsed(Integers(values), last), cursor;
  }

  /** Read one label definition or data directive. */
  method ReadEntry(parser: PtxCstParser, payload: seq<nat>, ghost first: nat, rightBrace: nat, from: nat)
    returns (r: Parse<SectionEntry>, cursor: nat)
    requires Readable(parser, payload, first, rightBrace) && from < |payload|
    ensures r == ParseEntry(parser.stream, first + from, rightBrace)
    ensures r.Parsed? ==> from < cursor <= |payload| && r.pos == first + cursor
  {
    hide PtxCstParser.Valid, PtxCstParser.Token, ParseData, Readable, PayloadToken;
    PayloadAt(parser, payload, first, rightBrace);
    cursor := from;
    if IsIdentifierToken(PayloadToken(parser, payload, cursor).kind) && cursor + 1 < |payload|
      && PayloadToken(parser, payload, cursor + 1).kind.Colon?
    {
      var name, colon := payload[cursor], payload[cursor + 1];
      return Parsed(LabelDefinition(name, colon, TokenRange(name, colon + 1)), colon + 1), cursor + 2;
    }
    r, cursor := ReadData(parser, payload, first, rightBrace, cursor);
  }

  method ReadData(parser: PtxCstParser, payload: seq<nat>, ghost first: nat, rightBrace: nat, from: nat)
    returns (r: Parse<SectionEntry>, cursor: nat)
    requires Readable(parser, payload, first, rightBrace) && from < |payload|
    ensures r == ParseData(parser.stream, first + from, rightBrace)
    ensures r.Parsed? ==> from < cursor <= |payload| && r.pos == first + cursor
  {
    hide PtxCstParser.Valid, PtxCstParser.Token, ParseValue, Readable, PayloadToken, IsWidth, IsWideWidth;
    PayloadAt(parser, payload, first, rightBrace);
    cursor := from;
    var start := payload[cursor];
    var width := PayloadToken(parser, payload, cursor).text;
    if !IsWidth(width) {
      return Failed(SectionPayload(start), start), cursor;
    }
    var value, after := ReadValue(parser, payload, first, rightBrace, IsWideWidth(width), cursor + 1);
    if value.Failed? {
      return Failed(value.diagnostic, value.pos), cursor;
    }
    cursor := after;
    if cursor < |payload| && PayloadToken(parser, payload, cursor).kind.Semicolon? {
      cursor := cursor + 1;
    }
    return Parsed(Data(start, value.value, TokenRange(start, payload[cursor - 1] + 1)), payload[cursor - 1] + 1), cursor;
  }

  /** Read entries until the payload ends or a production is malformed. */
  method ReadEntries(parser: PtxCstParser, payload: seq<nat>, ghost first: nat, rightBrace: nat)
    returns (entries: seq<SectionEntry>, payloadError: Option<Diagnostic>)
    requires Readable(parser, payload, first, rightBrace)
    ensures (entries, payloadError) == ParseEntries(parser.stream, [], first, rightBrace)
  {
    hide PtxCstParser.Valid, PtxCstParser.Token, ParseEntry;
    entries, payloadError := [], None;
    var cursor := 0;
    while cursor < |payload|
      invariant cursor <= |payload|
      invariant ParseEntries(parser.stream, entries, first + cursor, rightBrace) == ParseEntries(parser.stream, [], first, rightBrace)
    {
      if PayloadToken(parser, payload, cursor).kind.Semicolon? {
        cursor := cursor + 1;
      } else {
        var entry, after := ReadEntry(parser, payload, first, rightBrace, cursor);
        if entry.Failed? {
          return entries, Some(entry.diagnostic);
        }
        entries := entries + [entry.value];
        cursor := after;
      }
    }
  }

  /** Equals `ParseSection` at the current token. */
  method ParseSectionDirective(parser: PtxCstParser) returns (r: Parse<ParsedSection>)
    requires parser.Valid()
    modifies parser, parser.lexer
    ensures parser.Valid() && parser.Position() == r.pos && r == ParseSection(parser.stream, old(parser.Position()))
  {
    hide PtxCstParser.Valid, PtxCstParser.Position, ParseEntries, FindClose, Run;
    var directive := parser.Consume();
    var nameToken := parser.PeekToken();
    var name := parser.Consume();
    if !IsIdentifierToken(nameToken.kind) {
      return Failed(Malformed(name), name + 1);
    }
    var leftBrace := parser.Take(LBrace);
    if leftBrace.Failed? {
      return Failed(leftBrace.diagnostic, leftBrace.pos);
    }
    var payload, close := CollectPayload(parser);
    if close.Failed? {
      return Failed(close.diagnostic, close.pos);
    }
    var rightBrace := close.value;
    var terminator, end := None, rightBrace + 1;
    var next := parser.PeekKind();
    if next.Semicolon? {
      var semicolon := parser.Consume();
      terminator, end := Some(semicolon), semicolon + 1;
    }
    BufferedPayload(parser, payload, leftBrace.pos, rightBrace);
    var entries, payloadError := ReadEntries(parser, payload, leftBrace.pos, rightBrace);
    return Parsed(ParsedSection(SectionDirective(directive, name, leftBrace.value, payload, entries, rightBrace, terminator,
                                                 TokenRange(directive, end)), payloadError), end);
  }
}
