/** What a lookup answers: the declaration of the nearest enclosing scope that stands for the name. */
module LookupMeaning {
  import opened Common
  import opened MemberNames
  import opened Symbols
  import opened LexicalBinding

  /** `outer` is `inner` or one of the scopes around it. */
  ghost predicate Encloses(scopes: seq<Scope>, outer: nat, inner: nat)
    requires ScopesNest(scopes) && inner < |scopes|
    decreases inner
  {
    outer == inner || (scopes[inner].parent.Some? && Encloses(scopes, outer, scopes[inner].parent.value))
  }

  /** A lexical declaration that stands for the name. */
  ghost predicate Names(s: Symbol, name: string) {
    !s.IsMetadata() && Spells(s.Declared(), name)
  }

  /** Some declaration of the scope stands for the name. */
  ghost predicate Known(symbols: seq<Symbol>, scope: nat, name: string) {
    exists i :: 0 <= i < |symbols| && symbols[i].scope == scope && Names(symbols[i], name)
  }

  /** An enclosing scope that knows the name, with none nearer. */
  ghost predicate Nearest(scopes: seq<Scope>, symbols: seq<Symbol>, scope: nat, name: string, found: nat)
    requires ScopesNest(scopes) && scope < |scopes|
  {
    && Encloses(scopes, found, scope) && Known(symbols, found, name)
    && forall t: nat :: Encloses(scopes, t, scope) && Known(symbols, t, name) ==> t <= found
  }

  /** Of the declarations of one scope that stand for the name, a plain one goes before groups, and earlier before later. */
  ghost predicate Preferred(symbols: seq<Symbol>, scope: nat, name: string, i: nat) {
    && i < |symbols| && symbols[i].scope == scope && Names(symbols[i], name)
    && forall j :: 0 <= j < |symbols| && symbols[j].scope == scope && Names(symbols[j], name) ==>
         if symbols[i].parameterizedCount.None? then symbols[j].parameterizedCount.None? ==> i <= j
         else symbols[j].parameterizedCount.Some? && i <= j
  }

  lemma PlainMatches(s: Symbol, scope: nat, name: string)
    ensures Matches(Exactly(scope, DeclaredName(name, None)), s)
      <==> s.scope == scope && Names(s, name) && s.parameterizedCount.None?
  {
  }

  lemma GroupMatches(s: Symbol, scope: nat, name: string)
    ensures Matches(Covering(scope, name), s) <==> s.scope == scope && Names(s, name) && s.parameterizedCount.Some?
  {
    if s.parameterizedCount.Some? {
      ContainsExact(s.name, s.parameterizedCount.value, name);
    }
  }

  /** A scope that knows the name prefers one of its declarations. */
  lemma ScopeAnswers(symbols: seq<Symbol>, scope: nat, name: string)
    ensures var exact, group := FirstMatch(symbols, Exactly(scope, DeclaredName(name, None))),
                                FirstMatch(symbols, Covering(scope, name));
      && (Known(symbols, scope, name) <==> exact.Some? || group.Some?)
      && (exact.Some? ==> Preferred(symbols, scope, name, exact.value) && symbols[exact.value].parameterizedCount.None?)
      && (exact.None? && group.Some? ==>
            Preferred(symbols, scope, name, group.value) && symbols[group.value].parameterizedCount.Some?)
  {
    hide FirstMatch, Names, Matches;
    FirstMatchIsEarliest(symbols, Exactly(scope, DeclaredName(name, None)));
    FirstMatchIsEarliest(symbols, Covering(scope, name));
    forall i | 0 <= i < |symbols|
      ensures Matches(Exactly(scope, DeclaredName(name, None)), symbols[i])
        <==> symbols[i].scope == scope && Names(symbols[i], name) && symbols[i].parameterizedCount.None?
      ensures Matches(Covering(scope, name), symbols[i])
        <==> symbols[i].scope == scope && Names(symbols[i], name) && symbols[i].parameterizedCount.Some?
    {
      PlainMatches(symbols[i], scope, name);
      GroupMatches(symbols[i], scope, name);
    }
  }

  lemma {:induction false} EnclosingIsEarlier(scopes: seq<Scope>, outer: nat, inner: nat)
    requires ScopesNest(scopes) && inner < |scopes| && Encloses(scopes, outer, inner)
    ensures outer <= inner
    decreases inner
  {
    if outer != inner {
      EnclosingIsEarlier(scopes, outer, scopes[inner].parent.value);
    }
  }

  /** A name that no scope in sight declares has no answer. */
  ghost predicate Unknown(scopes: seq<Scope>, symbols: seq<Symbol>, scope: nat, name: string)
    requires ScopesNest(scopes) && scope < |scopes|
  {
    forall t: nat :: Encloses(scopes, t, scope) ==> !Known(symbols, t, name)
  }

  /** The member of a group that a name is; a plain declaration has no members. */
  ghost predicate MemberIs(s: Symbol, name: string, member: Option<u32>) {
    if s.parameterizedCount.None? then member.None?
    else member.Some? && member.value < s.parameterizedCount.value && name == s.name + Decimal(member.value)
  }

  lemma GroupMember(s: Symbol, name: string)
    requires s.parameterizedCount.Some? && Names(s, name)
    ensures MemberIs(s, name, ParseParameterizedIndex(s.name, name))
  {
    var i: nat :| i < s.parameterizedCount.value && name == s.name + Decimal(i);
    ParseParameterizedIndexExact(s.name, name, i);
  }

  /**
   * A lookup has no answer exactly when no enclosing scope declares the name; otherwise it is the preferred declaration of
   * the nearest one that does, with the member that the name is.
   */
  lemma {:induction false} LookupIsNearest(scopes: seq<Scope>, symbols: seq<Symbol>, scope: nat, name: string)
    requires ScopesNest(scopes) && scope < |scopes|
    ensures var r := LinearLookup(scopes, symbols, scope, name);
      match r
      case None => Unknown(scopes, symbols, scope, name)
      case Some(l) =>
        && l.symbol < |symbols|
        && Nearest(scopes, symbols, scope, name, symbols[l.symbol].scope)
        && Preferred(symbols, symbols[l.symbol].scope, name, l.symbol)
        && MemberIs(symbols[l.symbol], name, l.parameterizedIndex)
    decreases scope
  {
    hide FirstMatch, Preferred, Names, Known, MemberIs, ParseParameterizedIndex;
    ScopeAnswers(symbols, scope, name);
    PreferredIsNamed(symbols, scope, name);
    forall t: nat | Encloses(scopes, t, scope) ensures t <= scope {
      EnclosingIsEarlier(scopes, t, scope);
    }
    var exact, group := FirstMatch(symbols, Exactly(scope, DeclaredName(name, None))),
                        FirstMatch(symbols, Covering(scope, name));
    if exact.Some? {
      PlainMember(symbols[exact.value], name);
    } else if group.Some? {
      GroupMember(symbols[group.value], name);
    } else if scopes[scope].parent.Some? {
      LookupIsNearest(scopes, symbols, scopes[scope].parent.value, name);
    }
  }

  lemma PreferredIsNamed(symbols: seq<Symbol>, scope: nat, name: string)
    ensures forall i: nat :: Preferred(symbols, scope, name, i) ==> symbols[i].scope == scope && Names(symbols[i], name)
  {
  }

  lemma PlainMember(s: Symbol, name: string)
    requires s.parameterizedCount.None?
    ensures MemberIs(s, name, None)
  {
  }
}
