/** Declarations as the symbol table stores them. */
module Symbols {
  import opened Common
  import opened MemberNames

  datatype SymbolKind =
    | Variable | InputParameter | ReturnParameter | CallParameter | Function | Label
    | CallPrototype | CallTargetSet | BranchTargetSet | DebugFile | DebugStringLabel

  datatype SymbolLinkage = NoLinkage | External | Visible | Weak | CommonLinkage

  datatype Symbol = Symbol(
    id: nat,
    scope: nat,
    kind: SymbolKind,
    name: string,
    declarationRange: SourceRange,
    linkage: SymbolLinkage,
    isArray: bool,
    parameterizedCount: Option<u32>,
    ownedScope: Option<nat>
  ) {
    /** Debug metadata is stored beside the declarations but never looked up lexically. */
    predicate IsMetadata() {
      kind.DebugFile? || kind.DebugStringLabel?
    }

    function Declared(): DeclaredName {
      DeclaredName(name, parameterizedCount)
    }
  }
}
