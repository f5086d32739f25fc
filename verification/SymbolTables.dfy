/** The indexed symbol table: each scope's indexes always hold exactly that scope's declarations. */
module SymbolTables {
  import opened Common
  import opened MemberNames
  import opened Symbols
  import opened ScopeIndex
  import opened LexicalBinding
  import opened BindingPass
  import opened SourceOrder

  /** The non-metadata declarations stored for one scope. */
  ghost function MembersOf(symbols: seq<Symbol>, scope: nat): Members {
    map id: nat | id < |symbols| && symbols[id].scope == scope && !symbols[id].IsMetadata() :: symbols[id].Declared()
  }

  ghost predicate IdsArePositions(symbols: seq<Symbol>) {
    forall i :: 0 <= i < |symbols| ==> symbols[i].id == i
  }

  lemma ExactIdsMatch(symbols: seq<Symbol>, scope: nat, d: DeclaredName)
    ensures ExactIds(MembersOf(symbols, scope), d) == MatchingIds(symbols, Exactly(scope, d))
  {
  }

  lemma OverlappingIdsMatch(symbols: seq<Symbol>, scope: nat, d: DeclaredName)
    ensures OverlappingIds(MembersOf(symbols, scope), d) == MatchingIds(symbols, Overlapping(scope, d))
  {
  }

  lemma CoveringIdsMatch(symbols: seq<Symbol>, scope: nat, name: string)
    ensures GroupsCovering(MembersOf(symbols, scope), name) == MatchingIds(symbols, Covering(scope, name))
  {
    forall i: nat | i < |symbols| && symbols[i].parameterizedCount.Some?
      ensures Spells(symbols[i].Declared(), name)
        <==> ParameterizedNameContains(symbols[i].name, symbols[i].parameterizedCount.value, name)
    {
      ContainsExact(symbols[i].name, symbols[i].parameterizedCount.value, name);
    }
  }

  /** One scope's indexed answer is the linear scans' answer for that scope. */
  lemma LocalIsLinear(scopes: seq<Scope>, symbols: seq<Symbol>, scope: nat, name: string, r: Option<SymbolLookup>)
    requires ScopesNest(scopes) && scope < |scopes|
    requires IsLocalLookup(r, MembersOf(symbols, scope), name)
    ensures LinearLookup(scopes, symbols, scope, name)
      == if r.Some? then r
         else if scopes[scope].parent.Some? then LinearLookup(scopes, symbols, scopes[scope].parent.value, name)
         else None
  {
    var members := MembersOf(symbols, scope);
    var ordinary := DeclaredName(name, None);
    ExactIdsMatch(symbols, scope, ordinary);
    FirstMatchIsEarliest(symbols, Exactly(scope, ordinary));
    CoveringIdsMatch(symbols, scope, name);
    FirstMatchIsEarliest(symbols, Covering(scope, name));
    var exact, group := FirstMatch(symbols, Exactly(scope, ordinary)), FirstMatch(symbols, Covering(scope, name));
    if OrdinaryIds(members, name) != {} {
      EarliestUnique(exact, Some(r.value.symbol), OrdinaryIds(members, name));
    } else if GroupsCovering(members, name) != {} {
      EarliestUnique(group, Some(r.value.symbol), GroupsCovering(members, name));
      ParseParameterizedIndexExact(symbols[group.value].name, name, r.value.parameterizedIndex.value);
    }
  }

  class SymbolTable {
    var scopes: seq<Scope>
    var symbols: seq<Symbol>
    var references: seq<SymbolReference>
    var declarationOccurrences: seq<seq<Occurrence>>
    var sourceOrders: map<SourceRange, nat>
    var scopeNameIndexes: seq<ScopeNameIndex>
    ghost var Repr: set<object>

    /** Every scope has indexes of its own. */
    ghost predicate Owned()
      reads this, Repr
    {
      && this in Repr && |scopeNameIndexes| == |scopes|
      && (forall k :: 0 <= k < |scopes| ==>
            && scopeNameIndexes[k] in Repr && scopeNameIndexes[k].Repr <= Repr
            && this !in scopeNameIndexes[k].Repr && scopeNameIndexes[k].Valid())
      && (forall k, l :: 0 <= k < l < |scopes| ==> scopeNameIndexes[k].Repr !! scopeNameIndexes[l].Repr)
    }

    ghost predicate Valid()
      reads this, Repr
    {
      && Owned() && ScopesNest(scopes) && IdsArePositions(symbols)
      && (forall k :: 0 <= k < |scopes| ==> scopeNameIndexes[k].members == MembersOf(symbols, k))
    }

    constructor ()
      ensures Valid() && fresh(Repr)
      ensures scopes == InitialBinding().scopes && symbols == [] && references == []
      ensures declarationOccurrences == [] && sourceOrders == map[]
    {
      scopes := [Scope(0, ModuleScope, None, None, None)];
      symbols, references, declarationOccurrences, sourceOrders := [], [], [], map[];
      var index := new ScopeNameIndex();
      scopeNameIndexes := [index];
      Repr := {this} + index.Repr + {index};
    }

    /** The indexed walk towards the module scope answers as the linear scans do. */
    method Lookup(scope: nat, name: string) returns (r: Option<SymbolLookup>)
      requires Valid() && scope < |scopes|
      ensures r == LinearLookup(scopes, symbols, scope, name)
    {
      var current: nat := scope;
      while true
        invariant current < |scopes|
        invariant LinearLookup(scopes, symbols, scope, name) == LinearLookup(scopes, symbols, current, name)
        decreases current
      {
        r := scopeNameIndexes[current].LocalLookup(symbols, name);
        LocalIsLinear(scopes, symbols, current, name, r);
        if r.Some? || scopes[current].parent.None? {
          return;
        }
        current := scopes[current].parent.value;
      }
    }

    /** Give a new scope its empty indexes. */
    method PushScope(scope: Scope)
      requires Valid() && scope.id == |scopes| && (scope.parent.Some? ==> scope.parent.value < |scopes|)
      requires forall i :: 0 <= i < |symbols| ==> symbols[i].scope < |scopes|
      modifies this
      ensures Valid() && fresh(Repr - old(Repr))
      ensures scopes == old(scopes) + [scope]
      ensures symbols == old(symbols) && references == old(references)
      ensures declarationOccurrences == old(declarationOccurrences) && sourceOrders == old(sourceOrders)
    {
      hide ScopeNameIndex.Valid;
      var index := new ScopeNameIndex();
      scopes := scopes + [scope];
      scopeNameIndexes := scopeNameIndexes + [index];
      Repr := Repr + index.Repr + {index};
    }

    /** Change a stored symbol in a field that no index reads. */
    method UpdateSymbol(id: nat, symbol: Symbol)
      requires Valid() && id < |symbols| && SameDeclarations(symbols, symbols[id := symbol])
      modifies this`symbols
      ensures Valid() && symbols == old(symbols)[id := symbol]
    {
      hide ScopeNameIndex.Valid;
      forall k: nat | k < |scopes| ensures MembersOf(symbols[id := symbol], k) == MembersOf(symbols, k) {
        SameDeclarationsSameMembers(symbols, symbols[id := symbol], k);
      }
      symbols := symbols[id := symbol];
    }

    /** The block scope of a parent and range: the first one stored. */
    method BlockScopeAt(parent: nat, range: SourceRange) returns (r: Option<nat>)
      ensures r == FirstBlockScope(scopes, parent, range)
    {
      for i := 0 to |scopes|
        invariant forall k :: 0 <= k < i ==> !IsBlockAt(scopes[k], parent, range)
      {
        if IsBlockAt(scopes[i], parent, range) {
          return Some(i);
        }
      }
      return None;
    }

    /** Whether a declaration of the symbol precedes a use; no value when the order is open. */
    method HasPrior(symbol: nat, use: SourceRange) returns (r: Option<bool>)
      ensures r == HasPriorDeclaration(sourceOrders, declarationOccurrences, symbol, use)
    {
      if use !in sourceOrders || symbol >= |declarationOccurrences| {
        return None;
      }
      var occurrences := declarationOccurrences[symbol];
      var unknown := false;
      for i := 0 to |occurrences|
        invariant forall k :: 0 <= k < i ==> !IsEarlier(occurrences[k], sourceOrders[use])
        invariant unknown <==> exists k :: 0 <= k < i && occurrences[k].lexicalOrder.None?
      {
        if occurrences[i].lexicalOrder.Some? && occurrences[i].lexicalOrder.value < sourceOrders[use] {
          assert IsEarlier(occurrences[i], sourceOrders[use]);
          return Some(true);
        }
        unknown := unknown || occurrences[i].lexicalOrder.None?;
      }
      return if unknown then None else Some(false);
    }

    /** Whether some recorded declarator of the symbol has this range. */
    method HasVariable(symbol: nat, range: SourceRange) returns (found: bool)
      ensures found <==> HasVariableDeclaration(declarationOccurrences, symbol, range)
    {
      if symbol >= |declarationOccurrences| {
        return false;
      }
      var occurrences := declarationOccurrences[symbol];
      for i := 0 to |occurrences|
        invariant forall k :: 0 <= k < i ==> occurrences[k].variableRange != Some(range)
      {
        if occurrences[i].variableRange == Some(range) {
          return true;
        }
      }
      return false;
    }

    /** Store a declaration and index it unless it is debug metadata. */
    method PushSymbol(symbol: Symbol)
      requires Valid() && symbol.id == |symbols| && symbol.scope < |scopes|
      requires !symbol.IsMetadata() ==>
        symbol.name != "" && FirstMatch(symbols, Exactly(symbol.scope, symbol.Declared())).None?
      modifies Repr
      ensures Valid() && fresh(Repr - old(Repr))
      ensures symbols == old(symbols) + [symbol] && declarationOccurrences == old(declarationOccurrences) + [[]]
      ensures scopes == old(scopes) && references == old(references) && sourceOrders == old(sourceOrders)
    {
      hide ScopeNameIndex.Valid;
      ExactIdsMatch(symbols, symbol.scope, symbol.Declared());
      FirstMatchIsEarliest(symbols, Exactly(symbol.scope, symbol.Declared()));
      ghost var before := symbols;
      symbols := symbols + [symbol];
      declarationOccurrences := declarationOccurrences + [[]];
      forall k: nat | k < |scopes| ensures MembersOf(symbols, k) == MembersNow(before, symbol, k) {
        MembersExtend(before, symbol, k);
      }
      if !symbol.IsMetadata() {
        var index := scopeNameIndexes[symbol.scope];
        index.IndexSymbol(symbol.id, symbol.Declared());
        Repr := Repr + index.Repr;
      }
    }
  }

  lemma SameDeclarationsSameMembers(before: seq<Symbol>, after: seq<Symbol>, scope: nat)
    requires SameDeclarations(before, after)
    ensures MembersOf(after, scope) == MembersOf(before, scope)
  {
  }

  /** A scope's declarations once `symbol` has been stored behind `symbols`. */
  ghost function MembersNow(symbols: seq<Symbol>, symbol: Symbol, scope: nat): Members {
    if symbol.scope == scope && !symbol.IsMetadata() then MembersOf(symbols, scope)[|symbols| := symbol.Declared()]
    else MembersOf(symbols, scope)
  }

  lemma MembersExtend(symbols: seq<Symbol>, symbol: Symbol, scope: nat)
    ensures MembersOf(symbols + [symbol], scope) == MembersNow(symbols, symbol, scope)
  {
  }
}
