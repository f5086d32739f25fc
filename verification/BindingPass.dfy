/** The two passes over a module: every declaration is collected, then every reference is bound. */
module BindingPass {
  import opened Common
  import opened MemberNames
  import opened Symbols
  import opened ScopeIndex
  import opened LexicalBinding
  import ConstantGrammar
  import InitializerGrammar
  import IntegerMagnitude

  // ---- the parts of a module that binding reads -------------------------------------------------

  datatype Identifier = Identifier(text: string, range: SourceRange)

  type Expression = ConstantGrammar.ConstantExpression<Identifier>

  type InitializerTree = InitializerGrammar.Initializer<Identifier>

  /** One declared variable; an array dimension may be left open. */
  datatype Declarator = Declarator(name: Identifier, range: SourceRange, count: Option<Identifier>,
                                   dimensions: seq<Option<Expression>>, initializer: Option<InitializerTree>)

  datatype VariableDeclaration =
    VariableDeclaration(linkage: SymbolLinkage, inParameterSpace: bool, declarators: seq<Declarator>)

  datatype VectorElement = PlainElement(name: Identifier) | MemberElement(base: Identifier)

  /** A name an operand mentions, in the role it has there. */
  datatype Use = Use(kind: ReferenceKind, name: Identifier)

  /** An operand; addresses, brackets, members, call parameters and branch labels are lists of the names they mention. */
  datatype Operand =
    | NameOperand(name: Identifier)
    | RegisterPredicatePair(dst: Identifier, predicated: Identifier)
    | VectorPack(elements: seq<VectorElement>)
    | ExpressionOperand(expression: Expression)
    | OrderedUse(use: Use, range: SourceRange)
    | OtherUses(uses: seq<Use>)

  datatype BodyItem =
    | VariablesItem(declaration: VariableDeclaration)
    | LabelItem(name: Identifier)
    | CallPrototypeItem(name: Identifier)
    | CallTargetsItem(name: Identifier)
    | BranchTargetsItem(name: Identifier)
    | InstructionItem(guard: Option<Identifier>, operands: seq<Operand>)
    | BlockItem(range: SourceRange, body: seq<BodyItem>)

  datatype Parameter = Parameter(name: Identifier, dimensions: seq<Option<Expression>>)

  datatype FunctionDeclaration = FunctionDeclaration(
    name: Identifier, isPrototype: bool, linkage: SymbolLinkage,
    returnParameters: seq<Parameter>, parameters: seq<Parameter>, body: seq<BodyItem>, range: SourceRange)

  datatype ModuleItem =
    | ModuleVariables(declaration: VariableDeclaration)
    | FileItem(fileIndex: Identifier)
    | DebugStringItem(section: Identifier, labels: seq<Identifier>)
    | FunctionItem(declaredFunction: FunctionDeclaration)

  // ---- the names that expressions mention -------------------------------------------------------

  /** An initializer operator, which is applied like a function but names no declaration. */
  predicate IsInitializerOperator(spelling: string) {
    spelling == "generic"
  }

  predicate AppliesOperator(e: Expression) {
    e.Call? && e.callee.Symbol? && IsInitializerOperator(e.callee.name.text)
  }

  /** The symbols of an expression in order; to be bound, an applied initializer operator is not one of them. */
  function Mentions(e: Expression, binding: bool): seq<Identifier> {
    match e
    case Literal(_) => []
    case Symbol(name) => [name]
    case Parenthesized(_, inner, _) => Mentions(inner, binding)
    case Call(callee, _, argument, _) =>
      (if binding && AppliesOperator(e) then [] else Mentions(callee, binding)) + Mentions(argument, binding)
    case Cast(_, _, _, operand) => Mentions(operand, binding)
    case UnaryOperation(_, operand) => Mentions(operand, binding)
    case BinaryOperation(left, _, right) => Mentions(left, binding) + Mentions(right, binding)
    case Conditional(condition, _, whenTrue, _, whenFalse) =>
      Mentions(condition, binding) + Mentions(whenTrue, binding) + Mentions(whenFalse, binding)
  }

  /** A member given a bare name names an enumerant, which is no declared symbol. */
  function InitializerMentions(i: InitializerTree, binding: bool): seq<Identifier>
    decreases i
  {
    match i
    case Named(_, _, value) => if value.Symbol? then [] else Mentions(value, binding)
    case Scalar(value) => Mentions(value, binding)
    case Braced(_, elements, _) => ElementMentions(elements, binding)
  }

  function ElementMentions(es: InitializerGrammar.Elements<Identifier>, binding: bool): seq<Identifier>
    decreases es
  {
    match es
    case NoMore => []
    case Final(last) => InitializerMentions(last, binding)
    case Then(element, _, rest) => InitializerMentions(element, binding) + ElementMentions(rest, binding)
  }

  function OptionalMentions(i: Option<InitializerTree>, binding: bool): seq<Identifier> {
    match i
    case None => []
    case Some(tree) => InitializerMentions(tree, binding)
  }

  function DimensionMentions(dimensions: seq<Option<Expression>>): seq<Identifier> {
    if dimensions == [] then []
    else
      var last := dimensions[|dimensions| - 1];
      DimensionMentions(dimensions[..|dimensions| - 1]) + (if last.Some? then Mentions(last.value, true) else [])
  }

  /** What binding mentions, numbering mentions too; what only numbering mentions is an initializer operator. */
  lemma {:induction false} BoundMentionsAreNumbered(e: Expression)
    ensures forall id :: id in Mentions(e, true) ==> id in Mentions(e, false)
    ensures forall id :: id in Mentions(e, false) && id !in Mentions(e, true) ==> IsInitializerOperator(id.text)
  {
    match e
    case Literal(_) =>
    case Symbol(_) =>
    case Parenthesized(_, inner, _) => BoundMentionsAreNumbered(inner);
    case Call(callee, _, argument, _) =>
      BoundMentionsAreNumbered(callee);
      BoundMentionsAreNumbered(argument);
    case Cast(_, _, _, operand) => BoundMentionsAreNumbered(operand);
    case UnaryOperation(_, operand) => BoundMentionsAreNumbered(operand);
    case BinaryOperation(left, _, right) =>
      BoundMentionsAreNumbered(left);
      BoundMentionsAreNumbered(right);
    case Conditional(condition, _, whenTrue, _, whenFalse) =>
      BoundMentionsAreNumbered(condition);
      BoundMentionsAreNumbered(whenTrue);
      BoundMentionsAreNumbered(whenFalse);
  }

  function UsesOf(kind: ReferenceKind, ids: seq<Identifier>): seq<Use> {
    seq(|ids|, i requires 0 <= i < |ids| => Use(kind, ids[i]))
  }

  /** A name in a position that may be the write-only sink, which is no symbol. */
  function SinkOr(kind: ReferenceKind, name: Identifier): seq<Use> {
    if name.text == "_" then [] else [Use(kind, name)]
  }

  function ElementUses(elements: seq<VectorElement>): seq<Use> {
    if elements == [] then []
    else
      ElementUses(elements[..|elements| - 1]) +
      match elements[|elements| - 1]
      case PlainElement(name) => SinkOr(InstructionOperand, name)
      case MemberElement(base) => [Use(InstructionOperand, base)]
  }

  /** The references an operand makes; only plain names, pairs and vector elements may be sinks. */
  function OperandUses(o: Operand): seq<Use> {
    match o
    case NameOperand(name) => SinkOr(InstructionOperand, name)
    case RegisterPredicatePair(dst, predicated) => SinkOr(InstructionOperand, dst) + SinkOr(Predicate, predicated)
    case VectorPack(elements) => ElementUses(elements)
    case ExpressionOperand(expression) => UsesOf(InstructionOperand, Mentions(expression, true))
    case OrderedUse(use, _) => [use]
    case OtherUses(uses) => uses
  }

  // ---- lexical order ----------------------------------------------------------------------------

  /** The next event gets the next order; a range's second event withdraws its order for good. */
  function IndexSourceRange(b: Binding, range: SourceRange): Binding {
    if range in b.ambiguous then b
    else if range in b.sourceOrders then
      b.(sourceOrders := b.sourceOrders - {range}, ambiguous := b.ambiguous + {range},
         nextSourceOrder := b.nextSourceOrder + 1)
    else
      b.(sourceOrders := b.sourceOrders[range := b.nextSourceOrder], nextSourceOrder := b.nextSourceOrder + 1)
  }

  function IndexEvents(b: Binding, events: seq<SourceRange>): Binding {
    if events == [] then b
    else IndexSourceRange(IndexEvents(b, events[..|events| - 1]), events[|events| - 1])
  }

  function Ranges(ids: seq<Identifier>): seq<SourceRange> {
    seq(|ids|, i requires 0 <= i < |ids| => ids[i].range)
  }

  function DeclaratorEvents(declarators: seq<Declarator>): seq<SourceRange> {
    if declarators == [] then []
    else
      var last := declarators[|declarators| - 1];
      DeclaratorEvents(declarators[..|declarators| - 1]) + ([last.name.range] + Ranges(OptionalMentions(last.initializer, false)))
  }

  /** Call targets, call target sets and branch target sets are ordered against their declarations. */
  function OperandEvents(operands: seq<Operand>): seq<SourceRange> {
    if operands == [] then []
    else
      var last := operands[|operands| - 1];
      OperandEvents(operands[..|operands| - 1]) + (if last.OrderedUse? then [last.range] else [])
  }

  function BodyEvents(body: seq<BodyItem>): seq<SourceRange> {
    if body == [] then []
    else BodyEvents(body[..|body| - 1]) + ItemEvents(body[|body| - 1])
  }

  function ItemEvents(item: BodyItem): seq<SourceRange> {
    match item
    case VariablesItem(declaration) => DeclaratorEvents(declaration.declarators)
    case BranchTargetsItem(name) => [name.range]
    case InstructionItem(_, operands) => OperandEvents(operands)
    case BlockItem(_, body) => BodyEvents(body)
    case _ => []
  }

  function ModuleEvents(items: seq<ModuleItem>): seq<SourceRange> {
    if items == [] then []
    else
      var last := items[|items| - 1];
      ModuleEvents(items[..|items| - 1]) +
      match last
      case ModuleVariables(declaration) => DeclaratorEvents(declaration.declarators)
      case FunctionItem(f) => [f.name.range] + BodyEvents(f.body)
      case _ => []
  }

  // ---- the collecting pass ----------------------------------------------------------------------

  function RecordOccurrence(b: Binding, symbol: nat, range: SourceRange, variableRange: Option<SourceRange>): Binding {
    if symbol < |b.occurrences| then
      var occurrence := Occurrence(symbol, range, Get(b.sourceOrders, range), variableRange);
      b.(occurrences := b.occurrences[symbol := b.occurrences[symbol] + [occurrence]])
    else b
  }

  /** A written count must be a positive 32-bit integer; an invalid one is diagnosed and counts as zero. */
  function ParameterizedCount(b: Binding, count: Option<Identifier>): (Binding, Option<u32>) {
    if count.None? then (b, None)
    else
      var magnitude := IntegerMagnitude.Magnitude(count.value.text);
      if magnitude.None? || magnitude.value == 0 || magnitude.value > 0xFFFF_FFFF then
        (b.(diagnostics := b.diagnostics + [InvalidParameterizedCount(count.value.range)]), Some(0))
      else (b, Some(magnitude.value))
  }

  function CollectDeclarator(b: Binding, scope: nat, declaration: VariableDeclaration, d: Declarator): Binding {
    var kind := if scope != 0 && declaration.inParameterSpace then CallParameter else Variable;
    var (counted, count) := ParameterizedCount(b, d.count);
    var (added, symbol) := AddSymbol(counted, scope,
      Declaration(kind, DeclaredName(d.name.text, count), d.name.range, declaration.linkage,
        d.dimensions != []), scope == 0);
    RecordOccurrence(added, symbol, d.name.range, Some(d.range))
  }

  function CollectDeclarators(b: Binding, scope: nat, declaration: VariableDeclaration, ds: seq<Declarator>): Binding {
    if ds == [] then b
    else CollectDeclarator(CollectDeclarators(b, scope, declaration, ds[..|ds| - 1]), scope, declaration, ds[|ds| - 1])
  }

  function AddOrdinary(b: Binding, scope: nat, kind: SymbolKind, name: Identifier): (Binding, nat) {
    AddSymbol(b, scope, Declaration(kind, DeclaredName(name.text, None), name.range, NoLinkage, false), false)
  }

  function AddBlockScope(b: Binding, parent: nat, range: SourceRange): Binding {
    b.(scopes := b.scopes + [Scope(|b.scopes|, BlockScope, Some(parent), None, Some(range))])
  }

  function CollectBody(b: Binding, body: seq<BodyItem>, functionScope: nat, lexicalScope: nat): Binding
    decreases body
  {
    if body == [] then b
    else CollectItem(CollectBody(b, body[..|body| - 1], functionScope, lexicalScope), body[|body| - 1],
                     functionScope, lexicalScope)
  }

  function CollectItem(b: Binding, item: BodyItem, functionScope: nat, lexicalScope: nat): Binding
    decreases item
  {
    match item
    case VariablesItem(declaration) => CollectDeclarators(b, lexicalScope, declaration, declaration.declarators)
    case LabelItem(name) => AddOrdinary(b, functionScope, Label, name).0
    case CallPrototypeItem(name) => AddOrdinary(b, functionScope, CallPrototype, name).0
    case CallTargetsItem(name) => AddOrdinary(b, functionScope, CallTargetSet, name).0
    case BranchTargetsItem(name) =>
      var (added, symbol) := AddOrdinary(b, functionScope, BranchTargetSet, name);
      RecordOccurrence(added, symbol, name.range, None)
    case InstructionItem(_, _) => b
    case BlockItem(range, body) => CollectBody(AddBlockScope(b, lexicalScope, range), body, functionScope, |b.scopes|)
  }

  function CollectParameters(b: Binding, scope: nat, kind: SymbolKind, ps: seq<Parameter>): Binding {
    if ps == [] then b
    else
      var p := ps[|ps| - 1];
      AddSymbol(CollectParameters(b, scope, kind, ps[..|ps| - 1]), scope,
        Declaration(kind, DeclaredName(p.name.text, None), p.name.range, NoLinkage, p.dimensions != []), false).0
  }

  /** The function's own scope; a definition takes over a prototype's as the symbol's owned scope. */
  function AddFunctionScope(b: Binding, owner: nat, range: SourceRange, prefer: bool): Binding {
    var owned := if owner < |b.symbols| && (b.symbols[owner].ownedScope.None? || prefer)
                 then b.symbols[owner := b.symbols[owner].(ownedScope := Some(|b.scopes|))] else b.symbols;
    b.(scopes := b.scopes + [Scope(|b.scopes|, FunctionScope, Some(0), Some(owner), Some(range))], symbols := owned)
  }

  /** The function's symbol, the scope of this occurrence of it, and the occurrence itself. */
  function OpenedFunction(b: Binding, f: FunctionDeclaration): Binding {
    var (added, symbol) := AddSymbol(b, 0,
      Declaration(SymbolKind.Function, DeclaredName(f.name.text, None), f.name.range, f.linkage, false), true);
    RecordOccurrence(AddFunctionScope(added, symbol, f.range, !f.isPrototype), symbol, f.name.range, None)
  }

  function CollectFunctionHeader(b: Binding, f: FunctionDeclaration): Binding {
    var withReturns := CollectParameters(OpenedFunction(b, f), |b.scopes|, ReturnParameter, f.returnParameters);
    CollectParameters(withReturns, |b.scopes|, InputParameter, f.parameters)
  }

  function CollectFunction(b: Binding, f: FunctionDeclaration): Binding {
    CollectBody(CollectFunctionHeader(b, f), f.body, |b.scopes|, |b.scopes|)
  }

  function FindMetadata(symbols: seq<Symbol>, kind: SymbolKind, name: string): (r: Option<nat>)
    ensures r.Some? ==> r.value < |symbols|
  {
    if symbols == [] then None
    else
      var earlier := FindMetadata(symbols[..|symbols| - 1], kind, name);
      var last := symbols[|symbols| - 1];
      if earlier.Some? then earlier
      else if last.scope == 0 && last.kind == kind && last.name == name then Some(|symbols| - 1)
      else None
  }

  /** Debug metadata is stored in the module scope but never indexed for lexical lookup. */
  function AddMetadata(b: Binding, kind: SymbolKind, name: string, range: SourceRange, idempotent: bool): Binding {
    var previous := FindMetadata(b.symbols, kind, name);
    if previous.Some? then
      if idempotent then b
      else b.(diagnostics := b.diagnostics + [DuplicateSymbol(range, b.symbols[previous.value].declarationRange, false)])
    else
      b.(symbols := b.symbols + [Symbol(|b.symbols|, 0, kind, name, range, NoLinkage, false, None, None)],
         occurrences := b.occurrences + [[]])
  }

  function CollectLabels(b: Binding, labels: seq<Identifier>): Binding {
    if labels == [] then b
    else
      var last := labels[|labels| - 1];
      AddMetadata(CollectLabels(b, labels[..|labels| - 1]), DebugStringLabel, last.text, last.range, false)
  }

  function CollectFile(b: Binding, fileIndex: Identifier): Binding {
    var magnitude := IntegerMagnitude.Magnitude(fileIndex.text);
    if magnitude.None? then b.(diagnostics := b.diagnostics + [InvalidDebugFileId(fileIndex.range)])
    else AddMetadata(b, DebugFile, Decimal(magnitude.value), fileIndex.range, false)
  }

  function CollectModuleItem(b: Binding, item: ModuleItem): Binding {
    match item
    case ModuleVariables(declaration) => CollectDeclarators(b, 0, declaration, declaration.declarators)
    case FileItem(fileIndex) => CollectFile(b, fileIndex)
    case DebugStringItem(section, labels) =>
      CollectLabels(AddMetadata(b, DebugStringLabel, section.text, section.range, true), labels)
    case FunctionItem(f) => CollectFunction(b, f)
  }

  function CollectModule(b: Binding, items: seq<ModuleItem>): Binding {
    if items == [] then b
    else CollectModuleItem(CollectModule(b, items[..|items| - 1]), items[|items| - 1])
  }

  // ---- the binding pass -------------------------------------------------------------------------

  /** The first block scope with this parent and range. */
  function FirstBlockScope(scopes: seq<Scope>, parent: nat, range: SourceRange): (r: Option<nat>)
    ensures r.Some? ==> r.value < |scopes| && IsBlockAt(scopes[r.value], parent, range)
    ensures forall i :: 0 <= i < |scopes| && IsBlockAt(scopes[i], parent, range) ==> r.Some? && r.value <= i
  {
    if scopes == [] then None
    else
      var earlier := FirstBlockScope(scopes[..|scopes| - 1], parent, range);
      if earlier.Some? then earlier
      else if IsBlockAt(scopes[|scopes| - 1], parent, range) then Some(|scopes| - 1)
      else None
  }

  predicate IsBlockAt(scope: Scope, parent: nat, range: SourceRange) {
    scope.kind == BlockScope && scope.parent == Some(parent) && scope.range == Some(range)
  }

  function AddReference(b: Binding, specials: set<string>, scope: nat, kind: ReferenceKind, id: Identifier): (r: Binding)
    requires ScopesNest(b.scopes) && scope < |b.scopes|
    ensures SameTable(b, r)
  {
    var target := if id.text in specials then None else LinearLookup(b.scopes, b.symbols, scope, id.text);
    var classification :=
      if id.text in specials then SpecialRegister
      else if target.None? then Unresolved
      else if target.value.symbol < |b.symbols| && b.symbols[target.value.symbol].linkage == External then ExternalSymbol
      else DeclaredSymbol;
    b.(references := b.references + [SymbolReference(scope, kind, id.text, id.range, classification, target)],
       diagnostics := if classification == Unresolved then b.diagnostics + [UnresolvedReference(id.range)] else b.diagnostics)
  }

  function AddReferences(b: Binding, specials: set<string>, scope: nat, uses: seq<Use>): (r: Binding)
    requires ScopesNest(b.scopes) && scope < |b.scopes|
    ensures SameTable(b, r)
  {
    if uses == [] then b
    else
      var last := uses[|uses| - 1];
      AddReference(AddReferences(b, specials, scope, uses[..|uses| - 1]), specials, scope, last.kind, last.name)
  }

  function BindOperands(b: Binding, specials: set<string>, scope: nat, operands: seq<Operand>): (r: Binding)
    requires ScopesNest(b.scopes) && scope < |b.scopes|
    ensures SameTable(b, r)
  {
    if operands == [] then b
    else
      AddReferences(BindOperands(b, specials, scope, operands[..|operands| - 1]), specials, scope,
                    OperandUses(operands[|operands| - 1]))
  }

  function BindDimensions(b: Binding, specials: set<string>, scope: nat, dimensions: seq<Option<Expression>>): (r: Binding)
    requires ScopesNest(b.scopes) && scope < |b.scopes|
    ensures SameTable(b, r)
  {
    AddReferences(b, specials, scope, UsesOf(ArrayDimension, DimensionMentions(dimensions)))
  }

  function BindDeclarators(b: Binding, specials: set<string>, scope: nat, ds: seq<Declarator>): (r: Binding)
    requires ScopesNest(b.scopes) && scope < |b.scopes|
    ensures SameTable(b, r)
  {
    if ds == [] then b
    else
      var before := BindDeclarators(b, specials, scope, ds[..|ds| - 1]);
      var last := ds[|ds| - 1];
      AddReferences(BindDimensions(before, specials, scope, last.dimensions), specials, scope,
                    UsesOf(Initializer, OptionalMentions(last.initializer, true)))
  }

  /** Bind a body in a scope; no value stands for the exception on a block without a scope. */
  function BindBody(b: Binding, specials: set<string>, body: seq<BodyItem>, scope: nat): (r: Option<Binding>)
    requires ScopesNest(b.scopes) && scope < |b.scopes|
    ensures r.Some? ==> SameTable(b, r.value)
    decreases body
  {
    if body == [] then Some(b)
    else
      var before := BindBody(b, specials, body[..|body| - 1], scope);
      if before.None? then None else BindItem(before.value, specials, body[|body| - 1], scope)
  }

  function BindItem(b: Binding, specials: set<string>, item: BodyItem, scope: nat): (r: Option<Binding>)
    requires ScopesNest(b.scopes) && scope < |b.scopes|
    ensures r.Some? ==> SameTable(b, r.value)
    decreases item
  {
    match item
    case VariablesItem(declaration) => Some(BindDeclarators(b, specials, scope, declaration.declarators))
    case InstructionItem(guard, operands) =>
      var predicated := if guard.Some? then AddReference(b, specials, scope, Predicate, guard.value) else b;
      Some(BindOperands(predicated, specials, scope, operands))
    case BlockItem(range, body) =>
      var block := FirstBlockScope(b.scopes, scope, range);
      if block.None? then None else BindBody(b, specials, body, block.value)
    case _ => Some(b)
  }

  function BindParameters(b: Binding, specials: set<string>, scope: nat, ps: seq<Parameter>): (r: Binding)
    requires ScopesNest(b.scopes) && scope < |b.scopes|
    ensures SameTable(b, r)
  {
    if ps == [] then b
    else BindDimensions(BindParameters(b, specials, scope, ps[..|ps| - 1]), specials, scope, ps[|ps| - 1].dimensions)
  }

  function BindFunction(b: Binding, specials: set<string>, f: FunctionDeclaration, scope: nat): (r: Option<Binding>)
    requires ScopesNest(b.scopes) && scope < |b.scopes|
    ensures r.Some? ==> SameTable(b, r.value)
  {
    var outputs := BindParameters(b, specials, scope, f.returnParameters);
    BindBody(BindParameters(outputs, specials, scope, f.parameters), specials, f.body, scope)
  }

  function BindModuleVariables(b: Binding, specials: set<string>, items: seq<ModuleItem>): (r: Binding)
    requires ScopesNest(b.scopes) && |b.scopes| > 0
    ensures SameTable(b, r)
  {
    if items == [] then b
    else
      var before := BindModuleVariables(b, specials, items[..|items| - 1]);
      match items[|items| - 1]
      case ModuleVariables(declaration) => BindDeclarators(before, specials, 0, declaration.declarators)
      case _ => before
  }

  /** A collected function together with the scope made for this occurrence of it. */
  datatype FunctionContext = FunctionContext(declaration: FunctionDeclaration, scope: nat)

  function FunctionContexts(b: Binding, items: seq<ModuleItem>): seq<FunctionContext> {
    if items == [] then []
    else
      var init := items[..|items| - 1];
      FunctionContexts(b, init) +
      match items[|items| - 1]
      case FunctionItem(f) => [FunctionContext(f, |CollectModule(b, init).scopes|)]
      case _ => []
  }

  function BindFunctions(b: Binding, specials: set<string>, contexts: seq<FunctionContext>): (r: Option<Binding>)
    requires ScopesNest(b.scopes) && forall c :: c in contexts ==> c.scope < |b.scopes|
    ensures r.Some? ==> SameTable(b, r.value)
  {
    if contexts == [] then Some(b)
    else
      var before := BindFunctions(b, specials, contexts[..|contexts| - 1]);
      var last := contexts[|contexts| - 1];
      assert last in contexts;
      if before.None? then None else BindFunction(before.value, specials, last.declaration, last.scope)
  }
}
