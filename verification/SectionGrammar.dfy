/** Sections: the matching brace, the payload productions, and what a parsed section covers. */
module SectionGrammar {
  import opened Common
  import opened Tokens
  import opened ConstantGrammar

  /** A half-open run of token ids. */
  datatype TokenRange = TokenRange(first: nat, last: nat)

  // ---- source forms -----------------------------------------------------------------------------

  predicate IsFunctionQualifier(kind: TokenKind) {
    kind.DotExtern? || kind.DotVisible? || kind.DotWeak? || kind.DotCommon?
  }

  predicate IsVariableStateSpace(kind: TokenKind) {
    kind.DotReg? || kind.DotParam? || kind.DotLocal? || kind.DotShared? || kind.DotGlobal? || kind.DotConst? || kind.DotTex?
  }

  predicate IsModuleDirective(kind: TokenKind) {
    kind.DotVersion? || kind.DotTarget? || kind.DotAddressSize? || kind.DotFile?
  }

  datatype ModuleSourceForm =
    | DirectiveForm | PragmaForm | SectionForm | LegacyDwarfForm | AliasForm | FunctionForm | QualifierForm
    | VariableForm | Unsupported

  /** What kind of module item a token can begin; `.alias` is told by its spelling. */
  function ClassifyModuleSource(token: PtxToken): ModuleSourceForm {
    if IsModuleDirective(token.kind) then DirectiveForm
    else if token.kind.DotPragma? then PragmaForm
    else if token.kind.DotSection? then SectionForm
    else if token.kind.AtAtDwarf? then LegacyDwarfForm
    else if token.kind.DotIdent? && token.text == ".alias" then AliasForm
    else if token.kind.DotEntry? || token.kind.DotFunc? then FunctionForm
    else if IsFunctionQualifier(token.kind) then QualifierForm
    else if IsVariableStateSpace(token.kind) then VariableForm
    else Unsupported
  }

  /** Module starts that end an unclosed section; a dotted alias may occur in the payload. */
  predicate IsSectionRecoveryBoundary(token: PtxToken) {
    !ClassifyModuleSource(token).Unsupported? && !ClassifyModuleSource(token).AliasForm?
  }

  // ---- the matching brace -----------------------------------------------------------------------

  /** The opening braces minus the closing ones among the tokens from `from` up to `limit`. */
  function BraceBalance(toks: seq<PtxToken>, from: nat, limit: nat): int
    requires from <= limit
    decreases limit
  {
    if from == limit then 0
    else
      var kind := TokenAt(toks, limit - 1).kind;
      BraceBalance(toks, from, limit - 1) + (if kind.LBrace? then 1 else if kind.RBrace? then -1 else 0)
  }

  /** A token of the payload that starts at `first`: it neither closes it nor must end an unclosed section. */
  ghost predicate StaysInside(toks: seq<PtxToken>, first: nat, i: nat)
    requires first <= i
  {
    var token := TokenAt(toks, i);
    && !token.kind.Eof?
    && (BraceBalance(toks, first, i) == 0 ==> !token.kind.RBrace? && !IsSectionRecoveryBoundary(token))
  }

  /** The payload starting at `first` is closed exactly by the right brace `close`. */
  ghost predicate Closes(toks: seq<PtxToken>, first: nat, close: nat) {
    && first <= close && TokenAt(toks, close).kind.RBrace? && BraceBalance(toks, first, close) == 0
    && forall i :: first <= i < close ==> StaysInside(toks, first, i)
  }

  /** The payload starting at `first` cannot be closed: it runs into the end of input or a module start at `at`. */
  ghost predicate Unclosed(toks: seq<PtxToken>, first: nat, at: nat) {
    && first <= at && (forall i :: first <= i < at ==> StaysInside(toks, first, i))
    && (TokenAt(toks, at).kind.Eof? || (BraceBalance(toks, first, at) == 0 && IsSectionRecoveryBoundary(TokenAt(toks, at))))
  }

  /** The brace that closes the payload starting at `first`, none of it up to `pos` having done so. */
  function FindClose(toks: seq<PtxToken>, first: nat, pos: nat): (r: Parse<nat>)
    requires first <= pos
    ensures r.pos >= pos
    ensures r.Parsed? ==> r.pos == r.value + 1 && r.value >= pos
    decreases Remaining(toks, pos)
  {
    var token := TokenAt(toks, pos);
    var outermost := BraceBalance(toks, first, pos) == 0;
    if token.kind.Eof? || (outermost && IsSectionRecoveryBoundary(token)) then Failed(Expected(pos, RBrace), pos)
    else if outermost && token.kind.RBrace? then Parsed(pos, pos + 1)
    else FindClose(toks, first, pos + 1)
  }

  /** A payload has one closing brace or one place where it is found unclosed, and never both. */
  lemma ClosedOnce(toks: seq<PtxToken>, first: nat, a: nat, b: nat)
    ensures Closes(toks, first, a) && Closes(toks, first, b) ==> a == b
    ensures Unclosed(toks, first, a) && Unclosed(toks, first, b) ==> a == b
    ensures !(Closes(toks, first, a) && Unclosed(toks, first, b))
  {
    assert Closes(toks, first, a) && first <= b < a ==> StaysInside(toks, first, b);
    assert Unclosed(toks, first, a) && first <= b < a ==> StaysInside(toks, first, b);
    assert Unclosed(toks, first, b) && first <= a < b ==> StaysInside(toks, first, a);
    assert Closes(toks, first, b) && first <= a < b ==> StaysInside(toks, first, a);
  }

  /** The search ends at the true matching brace, or refuses where the payload is found unclosed. */
  lemma {:induction false} FindCloseSound(toks: seq<PtxToken>, first: nat, pos: nat)
    requires first <= pos && forall i :: first <= i < pos ==> StaysInside(toks, first, i)
    ensures match FindClose(toks, first, pos)
      case Parsed(close, _) => Closes(toks, first, close)
      case Failed(d, at) => Unclosed(toks, first, at) && d == Expected(at, RBrace)
    decreases Remaining(toks, pos)
  {
    hide BraceBalance, IsSectionRecoveryBoundary;
    var token := TokenAt(toks, pos);
    var outermost := BraceBalance(toks, first, pos) == 0;
    if !token.kind.Eof? && !(outermost && (IsSectionRecoveryBoundary(token) || token.kind.RBrace?)) {
      assert StaysInside(toks, first, pos);
      FindCloseSound(toks, first, pos + 1);
    }
  }

  /** A brace closes the payload if and only if the search finds it. */
  lemma FindCloseExact(toks: seq<PtxToken>, first: nat, close: nat)
    ensures Closes(toks, first, close) <==> FindClose(toks, first, first) == Parsed(close, close + 1)
  {
    hide FindClose, Closes, Unclosed;
    FindCloseSound(toks, first, first);
    var r := FindClose(toks, first, first);
    if r.Parsed? {
      ClosedOnce(toks, first, close, r.value);
    } else {
      ClosedOnce(toks, first, close, r.pos);
    }
  }

  /** No prefix of the payload closes more braces than it opens. */
  ghost predicate NeverNegative(toks: seq<PtxToken>, first: nat, close: nat) {
    forall i :: first <= i <= close ==> BraceBalance(toks, first, i) >= 0
  }

  lemma {:induction false} PrefixIsBalanced(toks: seq<PtxToken>, first: nat, close: nat, i: nat)
    requires Closes(toks, first, close) && first <= i <= close
    ensures BraceBalance(toks, first, i) >= 0
    decreases i
  {
    if i > first {
      PrefixIsBalanced(toks, first, close, i - 1);
      assert StaysInside(toks, first, i - 1);
    }
  }

  /** The braces inside a closed payload are balanced. */
  lemma PayloadIsBalanced(toks: seq<PtxToken>, first: nat, close: nat)
    requires Closes(toks, first, close)
    ensures NeverNegative(toks, first, close) && BraceBalance(toks, first, close) == 0
  {
    forall i | first <= i <= close ensures BraceBalance(toks, first, i) >= 0 {
      PrefixIsBalanced(toks, first, close, i);
    }
  }

  // ---- the payload ------------------------------------------------------------------------------

  datatype SectionInteger = SectionInteger(sign: Option<nat>, magnitude: nat, span: TokenRange)

  datatype SectionValue =
    | Symbolic(name: nat)
    | Difference(name: nat, operation: nat, subtrahend: nat)
    | Addend(name: nat, operation: nat, addend: SectionInteger)
    | Integers(values: seq<SectionInteger>)

  datatype SectionEntry =
    | LabelDefinition(name: nat, colon: nat, span: TokenRange)
    | Data(typ: nat, value: SectionValue, span: TokenRange)

  predicate KindIn(toks: seq<PtxToken>, i: nat, end: nat, kind: TokenKind) {
    i < end && TokenAt(toks, i).kind == kind
  }

  predicate IsSign(kind: TokenKind) {
    kind.Plus? || kind.Minus?
  }

  predicate SignAt(toks: seq<PtxToken>, i: nat, end: nat) {
    i < end && IsSign(TokenAt(toks, i).kind)
  }

  predicate NameAt(toks: seq<PtxToken>, i: nat, end: nat) {
    i < end && IsIdentifierToken(TokenAt(toks, i).kind)
  }

  predicate IsWideWidth(width: string) {
    width == ".b32" || width == ".b64"
  }

  predicate IsWidth(width: string) {
    width == ".b8" || width == ".b16" || IsWideWidth(width)
  }

  function ParseInteger(toks: seq<PtxToken>, pos: nat, end: nat): (r: Parse<SectionInteger>)
    requires pos <= end
    ensures r.Parsed? ==> pos < r.pos <= end
  {
    var magnitude := if SignAt(toks, pos, end) then pos + 1 else pos;
    if magnitude < end && IsIntegerLiteral(TokenAt(toks, magnitude).kind) then
      Parsed(SectionInteger(if SignAt(toks, pos, end) then Some(pos) else None, magnitude, TokenRange(pos, magnitude + 1)),
             magnitude + 1)
    else Failed(SectionPayload(magnitude), magnitude)
  }

  function ParseIntegers(toks: seq<PtxToken>, values: seq<SectionInteger>, pos: nat, end: nat):
    (r: Parse<seq<SectionInteger>>)
    requires pos <= end
    ensures r.Parsed? ==> pos <= r.pos <= end
    decreases end - pos
  {
    if !KindIn(toks, pos, end, Comma) then Parsed(values, pos)
    else
      match ParseInteger(toks, pos + 1, end)
      case Failed(d, at) => Failed(d, at)
      case Parsed(v, next) => ParseIntegers(toks, values + [v], next, end)
  }

  function ParseValue(toks: seq<PtxToken>, wide: bool, pos: nat, end: nat): (r: Parse<SectionValue>)
    requires pos <= end
    ensures r.Parsed? ==> pos < r.pos <= end
  {
    if NameAt(toks, pos, end) then
      if !wide then Failed(SectionPayload(pos), pos)
      else if !SignAt(toks, pos + 1, end) then Parsed(Symbolic(pos), pos + 1)
      else if KindIn(toks, pos + 1, end, Minus) && NameAt(toks, pos + 2, end) then
        Parsed(Difference(pos, pos + 1, pos + 2), pos + 3)
      else
        match ParseInteger(toks, pos + 2, end)
        case Failed(d, at) => Failed(d, at)
        case Parsed(v, next) => Parsed(Addend(pos, pos + 1, v), next)
    else
      match ParseInteger(toks, pos, end)
      case Failed(d, at) => Failed(d, at)
      case Parsed(v, next) =>
        match ParseIntegers(toks, [v], next, end)
        case Failed(d, at) => Failed(d, at)
        case Parsed(vs, after) => Parsed(Integers(vs), after)
  }

  function ParseEntry(toks: seq<PtxToken>, pos: nat, end: nat): (r: Parse<SectionEntry>)
    requires pos < end
    ensures r.Parsed? ==> pos < r.pos <= end
  {
    if NameAt(toks, pos, end) && KindIn(toks, pos + 1, end, Colon) then
      Parsed(LabelDefinition(pos, pos + 1, TokenRange(pos, pos + 2)), pos + 2)
    else ParseData(toks, pos, end)
  }

  /** A width, a value and an optional semicolon. */
  function ParseData(toks: seq<PtxToken>, pos: nat, end: nat): (r: Parse<SectionEntry>)
    requires pos < end
    ensures r.Parsed? ==> pos < r.pos <= end
  {
    if !IsWidth(TokenAt(toks, pos).text) then Failed(SectionPayload(pos), pos)
    else
      match ParseValue(toks, IsWideWidth(TokenAt(toks, pos).text), pos + 1, end)
      case Failed(d, at) => Failed(d, at)
      case Parsed(v, next) =>
        var after := if KindIn(toks, next, end, Semicolon) then next + 1 else next;
        Parsed(Data(pos, v, TokenRange(pos, after)), after)
  }

  /** The entries after those already read, and the first payload error if there is one. */
  function ParseEntries(toks: seq<PtxToken>, entries: seq<SectionEntry>, pos: nat, end: nat):
    (seq<SectionEntry>, Option<Diagnostic>)
    requires pos <= end
    decreases end - pos
  {
    if pos == end then (entries, None)
    else if KindIn(toks, pos, end, Semicolon) then ParseEntries(toks, entries, pos + 1, end)
    else
      match ParseEntry(toks, pos, end)
      case Failed(d, at) => (entries, Some(d))
      case Parsed(e, next) => ParseEntries(toks, entries + [e], next, end)
  }

  // ---- what the entries cover -------------------------------------------------------------------

  predicate IntegerAt(toks: seq<PtxToken>, i: nat) {
    var kind := TokenAt(toks, i).kind; kind.Binary? || kind.Decimal? || kind.Hex?
  }

  predicate WordAt(toks: seq<PtxToken>, i: nat) {
    var kind := TokenAt(toks, i).kind; kind.Ident? || kind.DotIdent?
  }

  /** The integer covers `first` to `last`: an optional sign and an integer literal. */
  ghost predicate IntegerWritten(toks: seq<PtxToken>, v: SectionInteger, first: nat, last: nat) {
    && v.span == TokenRange(first, last) && v.magnitude + 1 == last
    && IntegerAt(toks, v.magnitude)
    && match v.sign
       case None => v.magnitude == first
       case Some(s) => s == first && v.magnitude == first + 1 && (TokenAt(toks, s).kind.Plus? || TokenAt(toks, s).kind.Minus?)
  }

  /** Integers from `first` to `last` with one comma between neighbours. */
  ghost predicate IntegersWritten(toks: seq<PtxToken>, vs: seq<SectionInteger>, first: nat, last: nat)
    decreases |vs|
  {
    |vs| > 0 &&
    var v := vs[|vs| - 1];
    && IntegerWritten(toks, v, v.span.first, last)
    && if |vs| == 1 then v.span.first == first
       else
         && v.span.first > 0 && TokenAt(toks, v.span.first - 1).kind.Comma?
         && IntegersWritten(toks, vs[..|vs| - 1], first, v.span.first - 1)
  }

  ghost predicate ValueWritten(toks: seq<PtxToken>, wide: bool, v: SectionValue, first: nat, last: nat) {
    match v
    case Integers(vs) => IntegersWritten(toks, vs, first, last)
    case Symbolic(n) => wide && n == first && WordAt(toks, n) && last == first + 1
    case Difference(n, o, s) =>
      && wide && n == first && o == first + 1 && s == first + 2 && last == first + 3
      && WordAt(toks, n) && TokenAt(toks, o).kind.Minus? && WordAt(toks, s)
    case Addend(n, o, i) =>
      && wide && n == first && o == first + 1 && WordAt(toks, n)
      && (TokenAt(toks, o).kind.Plus? || TokenAt(toks, o).kind.Minus?) && IntegerWritten(toks, i, first + 2, last)
  }

  /** No token at `last` could continue the value. */
  predicate ValueEnded(toks: seq<PtxToken>, v: SectionValue, last: nat, end: nat) {
    match v
    case Symbolic(_) => !(last < end && (TokenAt(toks, last).kind.Plus? || TokenAt(toks, last).kind.Minus?))
    case Integers(_) => !(last < end && TokenAt(toks, last).kind.Comma?)
    case _ => true
  }

  /** The datum's value follows its width and ends at `close`; a semicolon there, inside the payload, belongs to it. */
  ghost predicate DataCloses(toks: seq<PtxToken>, e: SectionEntry, close: nat, end: nat)
    requires e.Data?
  {
    && ValueWritten(toks, TokenAt(toks, e.typ).text in {".b32", ".b64"}, e.value, e.typ + 1, close) && close <= end
    && ValueEnded(toks, e.value, close, end)
    && e.span.last == if close < end && TokenAt(toks, close).kind.Semicolon? then close + 1 else close
  }

  /** Each field of an entry stands where its production puts it, and together they cover the entry's span. */
  ghost predicate EntryWritten(toks: seq<PtxToken>, e: SectionEntry, end: nat) {
    match e
    case LabelDefinition(n, c, span) =>
      && WordAt(toks, n) && c == n + 1 < end && TokenAt(toks, c).kind.Colon? && span == TokenRange(n, c + 1)
    case Data(t, v, span) =>
      && TokenAt(toks, t).text in {".b8", ".b16", ".b32", ".b64"} && span.first == t
      && !(WordAt(toks, t) && t + 1 < end && TokenAt(toks, t + 1).kind.Colon?)
      && exists close: nat :: DataCloses(toks, e, close, end)
  }

  /** A stray semicolon, which no entry begins with. */
  predicate StrayAt(toks: seq<PtxToken>, i: nat, end: nat) {
    KindIn(toks, i, end, Semicolon)
  }

  /**
   * The entries in order, with stray semicolons between them, are exactly the tokens from `from` up to `limit`, in a payload
   * that ends at `end`.
   */
  ghost predicate EntriesTile(toks: seq<PtxToken>, entries: seq<SectionEntry>, from: nat, limit: nat, end: nat)
    decreases limit
  {
    || (from == limit && entries == [])
    || (from < limit && StrayAt(toks, limit - 1, end) && EntriesTile(toks, entries, from, limit - 1, end))
    || (&& from < limit && entries != []
        && var e := entries[|entries| - 1];
           && EntryWritten(toks, e, end) && e.span.last == limit && e.span.first < limit && !StrayAt(toks, e.span.first, end)
           && EntriesTile(toks, entries[..|entries| - 1], from, e.span.first, end))
  }

  lemma {:induction false} IntegersAreWritten(toks: seq<PtxToken>, values: seq<SectionInteger>, first: nat, pos: nat,
                                              end: nat)
    requires pos <= end && IntegersWritten(toks, values, first, pos)
    ensures var r := ParseIntegers(toks, values, pos, end);
      && (r.Parsed? ==> IntegersWritten(toks, r.value, first, r.pos) && !KindIn(toks, r.pos, end, Comma))
      && (r.Failed? ==> r.diagnostic.SectionPayload? && pos <= r.diagnostic.at <= end)
    decreases end - pos
  {
    hide IntegersWritten;
    if KindIn(toks, pos, end, Comma) {
      var next := ParseInteger(toks, pos + 1, end);
      if next.Parsed? {
        OneMoreInteger(toks, values, first, pos, end);
        IntegersAreWritten(toks, values + [next.value], first, next.pos, end);
      }
    }
  }

  /** A parsed value stands there and is ended; a refused one is refused inside the payload. */
  lemma ValueIsWritten(toks: seq<PtxToken>, wide: bool, pos: nat, end: nat)
    requires pos <= end
    ensures var r := ParseValue(toks, wide, pos, end);
      && (r.Parsed? ==> ValueWritten(toks, wide, r.value, pos, r.pos) && ValueEnded(toks, r.value, r.pos, end))
      && (r.Failed? ==> r.diagnostic.SectionPayload? && pos <= r.diagnostic.at <= end)
  {
    hide ParseIntegers, IntegersWritten;
    if !NameAt(toks, pos, end) {
      var v := ParseInteger(toks, pos, end);
      if v.Parsed? {
        OneIntegerWritten(toks, v.value, pos, v.pos);
        IntegersAreWritten(toks, [v.value], pos, v.pos, end);
      }
    }
  }

  lemma OneIntegerWritten(toks: seq<PtxToken>, v: SectionInteger, first: nat, last: nat)
    ensures IntegersWritten(toks, [v], first, last) <==> IntegerWritten(toks, v, first, last)
  {
  }

  lemma EntryIsWritten(toks: seq<PtxToken>, pos: nat, end: nat)
    requires pos < end
    ensures var r := ParseEntry(toks, pos, end);
      && (r.Parsed? ==> EntryWritten(toks, r.value, end) && r.value.span == TokenRange(pos, r.pos))
      && (r.Failed? ==> r.diagnostic.SectionPayload? && pos <= r.diagnostic.at <= end)
  {
    hide ParseValue, ValueWritten;
    var wide := IsWideWidth(TokenAt(toks, pos).text);
    ValueIsWritten(toks, wide, pos + 1, end);
    var v := ParseValue(toks, wide, pos + 1, end);
    var r := ParseEntry(toks, pos, end);
    if r.Parsed? && r.value.Data? {
      assert DataCloses(toks, r.value, v.pos, end);
    }
  }

  /** Without a payload error the entries and stray semicolons tile the payload; an error lies in it. */
  lemma {:induction false} PayloadIsTiled(toks: seq<PtxToken>, entries: seq<SectionEntry>, first: nat, pos: nat, end: nat)
    requires first <= pos <= end && EntriesTile(toks, entries, first, pos, end)
    ensures var r := ParseEntries(toks, entries, pos, end);
      && (r.1.None? ==> EntriesTile(toks, r.0, first, end, end))
      && (r.1.Some? ==>
          && r.1.value.SectionPayload? && pos <= r.1.value.at <= end
          && exists upTo: nat :: first <= upTo < end && EntriesTile(toks, r.0, first, upTo, end))
    decreases end - pos
  {
    hide ParseEntry, EntryWritten;
    if pos < end {
      if KindIn(toks, pos, end, Semicolon) {
        PayloadIsTiled(toks, entries, first, pos + 1, end);
      } else {
        EntryIsWritten(toks, pos, end);
        var e := ParseEntry(toks, pos, end);
        if e.Parsed? {
          var more := entries + [e.value];
          assert more[..|more| - 1] == entries;
          PayloadIsTiled(toks, more, first, e.pos, end);
        }
      }
    }
  }

  // ---- and conversely, what is written is read --------------------------------------------------

  lemma IntegerIsRead(toks: seq<PtxToken>, v: SectionInteger, first: nat, last: nat, end: nat)
    requires IntegerWritten(toks, v, first, last) && last <= end
    ensures ParseInteger(toks, first, end) == Parsed(v, last)
  {
  }

  /** Reading the first integer and then the rest arrives at all of them. */
  lemma {:induction false} IntegersAreRead(toks: seq<PtxToken>, vs: seq<SectionInteger>, first: nat, last: nat, end: nat)
    requires IntegersWritten(toks, vs, first, last) && first <= last <= end
    ensures ParseInteger(toks, first, end) == Parsed(vs[0], vs[0].span.last)
    ensures vs[0].span.last <= last
    ensures ParseIntegers(toks, [vs[0]], vs[0].span.last, end) == ParseIntegers(toks, vs, last, end)
    decreases |vs|
  {
    hide ParseInteger;
    var n := |vs| - 1;
    if n == 0 {
      IntegerIsRead(toks, vs[0], first, last, end);
      assert vs == [vs[0]];
    } else {
      var comma := vs[n].span.first - 1;
      IntegersSpan(toks, vs[..n], first, comma);
      IntegersAreRead(toks, vs[..n], first, comma, end);
      IntegerIsRead(toks, vs[n], comma + 1, last, end);
      assert vs[..n] + [vs[n]] == vs && vs[..n][0] == vs[0];
    }
  }

  lemma ValueIsRead(toks: seq<PtxToken>, wide: bool, v: SectionValue, first: nat, last: nat, end: nat)
    requires ValueWritten(toks, wide, v, first, last) && ValueEnded(toks, v, last, end) && first <= last <= end
    ensures ParseValue(toks, wide, first, end) == Parsed(v, last)
  {
    match v
    case Integers(vs) => IntegersAreRead(toks, vs, first, last, end);
    case Addend(_, _, i) => IntegerIsRead(toks, i, first + 2, last, end);
    case _ =>
  }

  lemma {:induction false} IntegersSpan(toks: seq<PtxToken>, vs: seq<SectionInteger>, first: nat, last: nat)
    requires IntegersWritten(toks, vs, first, last)
    ensures first < last
    decreases |vs|
  {
    if |vs| > 1 {
      IntegersSpan(toks, vs[..|vs| - 1], first, vs[|vs| - 1].span.first - 1);
    }
  }

  lemma ValueSpan(toks: seq<PtxToken>, wide: bool, v: SectionValue, first: nat, last: nat)
    requires ValueWritten(toks, wide, v, first, last)
    ensures first < last
  {
    if v.Integers? {
      IntegersSpan(toks, v.values, first, last);
    }
  }

  lemma EntryIsRead(toks: seq<PtxToken>, e: SectionEntry, end: nat)
    requires EntryWritten(toks, e, end) && e.span.first < e.span.last <= end
    ensures ParseEntry(toks, e.span.first, end) == Parsed(e, e.span.last)
  {
    hide ParseValue, ValueWritten, ValueEnded;
    if e.Data? {
      var wide := IsWideWidth(TokenAt(toks, e.typ).text);
      var close: nat :| DataCloses(toks, e, close, end);
      ValueSpan(toks, wide, e.value, e.typ + 1, close);
      ValueIsRead(toks, wide, e.value, e.typ + 1, close, end);
    }
  }

  /** Reading a tiled payload from its start arrives at every place of the tiling with the entries before it. */
  lemma {:induction false} EntriesAreRead(toks: seq<PtxToken>, entries: seq<SectionEntry>, first: nat, pos: nat, end: nat)
    requires EntriesTile(toks, entries, first, pos, end) && first <= pos <= end
    ensures ParseEntries(toks, [], first, end) == ParseEntries(toks, entries, pos, end)
    decreases pos
  {
    hide ParseEntry, EntryWritten;
    if first < pos && StrayAt(toks, pos - 1, end) && EntriesTile(toks, entries, first, pos - 1, end) {
      EntriesAreRead(toks, entries, first, pos - 1, end);
    } else if first < pos {
      var init, e := entries[..|entries| - 1], entries[|entries| - 1];
      TileOrdered(toks, init, first, e.span.first, end);
      EntriesAreRead(toks, init, first, e.span.first, end);
      EntryIsRead(toks, e, end);
      assert init + [e] == entries;
    }
  }

  lemma {:induction false} TileOrdered(toks: seq<PtxToken>, entries: seq<SectionEntry>, first: nat, pos: nat, end: nat)
    requires EntriesTile(toks, entries, first, pos, end)
    ensures first <= pos
  {
  }

  /** A payload reads as these entries without an error if and only if it is written as them, in order, with stray semicolons. */
  lemma PayloadReadsExactlyWhen(toks: seq<PtxToken>, entries: seq<SectionEntry>, first: nat, end: nat)
    requires first <= end
    ensures ParseEntries(toks, [], first, end) == (entries, None) <==> EntriesTile(toks, entries, first, end, end)
  {
    hide ParseEntry, EntryWritten;
    PayloadIsTiled(toks, [], first, first, end);
    if EntriesTile(toks, entries, first, end, end) {
      EntriesAreRead(toks, entries, first, end, end);
    }
  }

  // ---- and where a payload is refused -----------------------------------------------------------

  predicate SignedAt(toks: seq<PtxToken>, i: nat, end: nat) {
    i < end && (TokenAt(toks, i).kind.Plus? || TokenAt(toks, i).kind.Minus?)
  }

  /** After a sign, if there is one, no integer literal stands. */
  predicate IntegerRefused(toks: seq<PtxToken>, first: nat, end: nat, at: nat) {
    at == (if SignedAt(toks, first, end) then first + 1 else first) && !(at < end && IntegerAt(toks, at))
  }

  /** After a comma that follows these integers no further one stands. */
  ghost predicate NextRefused(toks: seq<PtxToken>, vs: seq<SectionInteger>, first: nat, comma: nat, end: nat, at: nat) {
    && IntegersWritten(toks, vs, first, comma) && comma < end && TokenAt(toks, comma).kind.Comma?
    && IntegerRefused(toks, comma + 1, end, at)
  }

  /** A name where only integers may stand, a name's missing addend, or an integer missing at the start or after a comma. */
  ghost predicate ValueRefused(toks: seq<PtxToken>, wide: bool, first: nat, end: nat, at: nat) {
    if first < end && WordAt(toks, first) then
      if !wide then at == first
      else
        && SignedAt(toks, first + 1, end)
        && !(TokenAt(toks, first + 1).kind.Minus? && first + 2 < end && WordAt(toks, first + 2))
        && IntegerRefused(toks, first + 2, end, at)
    else
      || IntegerRefused(toks, first, end, at)
      || exists vs: seq<SectionInteger>, comma: nat :: NextRefused(toks, vs, first, comma, end, at)
  }

  /** Neither a label nor one of the four widths, or a width without its value. */
  ghost predicate EntryRefused(toks: seq<PtxToken>, pos: nat, end: nat, at: nat) {
    var width := TokenAt(toks, pos).text;
    && !(WordAt(toks, pos) && pos + 1 < end && TokenAt(toks, pos + 1).kind.Colon?)
    && if width in {".b8", ".b16", ".b32", ".b64"} then ValueRefused(toks, width in {".b32", ".b64"}, pos + 1, end, at)
       else at == pos
  }

  lemma IntegerRefusedIff(toks: seq<PtxToken>, pos: nat, end: nat, d: Diagnostic, at: nat)
    requires pos <= end
    ensures ParseInteger(toks, pos, end) == Failed(d, at) <==> d == SectionPayload(at) && IntegerRefused(toks, pos, end, at)
  {
  }

  lemma {:induction false} IntegersRefusedAt(toks: seq<PtxToken>, values: seq<SectionInteger>, first: nat, pos: nat, end: nat)
    requires pos <= end && IntegersWritten(toks, values, first, pos)
    ensures var r := ParseIntegers(toks, values, pos, end);
      r.Failed? ==>
        && r.diagnostic == SectionPayload(r.pos)
        && exists vs: seq<SectionInteger>, comma: nat :: NextRefused(toks, vs, first, comma, end, r.pos)
    decreases end - pos
  {
    hide ParseInteger, IntegerRefused;
    if KindIn(toks, pos, end, Comma) {
      var next := ParseInteger(toks, pos + 1, end);
      if next.Parsed? {
        assert IntegersWritten(toks, values + [next.value], first, next.pos) by { OneMoreInteger(toks, values, first, pos, end); }
        IntegersRefusedAt(toks, values + [next.value], first, next.pos, end);
      } else {
        IntegerRefusedIff(toks, pos + 1, end, next.diagnostic, next.pos);
        assert NextRefused(toks, values, first, pos, end, next.pos);
      }
    }
  }

  lemma OneMoreInteger(toks: seq<PtxToken>, values: seq<SectionInteger>, first: nat, pos: nat, end: nat)
    requires IntegersWritten(toks, values, first, pos) && KindIn(toks, pos, end, Comma)
    requires ParseInteger(toks, pos + 1, end).Parsed?
    ensures var next := ParseInteger(toks, pos + 1, end); IntegersWritten(toks, values + [next.value], first, next.pos)
  {
    var more := values + [ParseInteger(toks, pos + 1, end).value];
    assert more[..|more| - 1] == values;
  }

  lemma ValueRefusedAt(toks: seq<PtxToken>, wide: bool, pos: nat, end: nat)
    requires pos <= end
    ensures var r := ParseValue(toks, wide, pos, end);
      r.Failed? ==> r.diagnostic == SectionPayload(r.pos) && ValueRefused(toks, wide, pos, end, r.pos)
  {
    hide ParseIntegers, IntegersWritten, ParseInteger, IntegerRefused;
    var r := ParseValue(toks, wide, pos, end);
    if r.Failed? {
      IntegerRefusedIff(toks, pos, end, r.diagnostic, r.pos);
      if pos + 2 <= end {
        IntegerRefusedIff(toks, pos + 2, end, r.diagnostic, r.pos);
      }
      var v := ParseInteger(toks, pos, end);
      if !NameAt(toks, pos, end) && v.Parsed? {
        assert IntegersWritten(toks, [v.value], pos, v.pos) by { FirstInteger(toks, pos, end); }
        IntegersRefusedAt(toks, [v.value], pos, v.pos, end);
      }
    }
  }

  lemma FirstInteger(toks: seq<PtxToken>, pos: nat, end: nat)
    requires pos <= end && ParseInteger(toks, pos, end).Parsed?
    ensures var v := ParseInteger(toks, pos, end); IntegersWritten(toks, [v.value], pos, v.pos)
  {
    OneIntegerWritten(toks, ParseInteger(toks, pos, end).value, pos, ParseInteger(toks, pos, end).pos);
  }

  /** An entry is refused at the token where its production stops making sense. */
  lemma EntryRefusedAt(toks: seq<PtxToken>, pos: nat, end: nat)
    requires pos < end
    ensures var r := ParseEntry(toks, pos, end);
      r.Failed? ==> r.diagnostic == SectionPayload(r.pos) && EntryRefused(toks, pos, end, r.pos)
  {
    hide ParseValue, ValueRefused;
    ValueRefusedAt(toks, IsWideWidth(TokenAt(toks, pos).text), pos + 1, end);
  }

  /** A payload error is that of the first entry that is refused, after entries and semicolons that cover what precedes it. */
  lemma {:induction false} PayloadRefusedAt(toks: seq<PtxToken>, entries: seq<SectionEntry>, first: nat, pos: nat, end: nat)
    requires first <= pos <= end && EntriesTile(toks, entries, first, pos, end)
    ensures var r := ParseEntries(toks, entries, pos, end);
      r.1.Some? ==>
        && r.1.value.SectionPayload?
        && exists upTo: nat :: first <= upTo < end && EntriesTile(toks, r.0, first, upTo, end)
             && !TokenAt(toks, upTo).kind.Semicolon? && EntryRefused(toks, upTo, end, r.1.value.at)
    decreases end - pos
  {
    hide ParseEntry, EntryWritten, EntryRefused;
    if pos < end {
      if KindIn(toks, pos, end, Semicolon) {
        PayloadRefusedAt(toks, entries, first, pos + 1, end);
      } else {
        EntryIsWritten(toks, pos, end);
        EntryRefusedAt(toks, pos, end);
        var e := ParseEntry(toks, pos, end);
        if e.Parsed? {
          var more := entries + [e.value];
          assert more[..|more| - 1] == entries;
          PayloadRefusedAt(toks, more, first, e.pos, end);
        }
      }
    }
  }
}
