/** The character trie of compact-group bases in one scope. */
module ParameterizedPrefixTrie {
  import opened Common
  import opened MemberNames
  import opened Symbols

  datatype ParameterizedPrefixNode = ParameterizedPrefixNode(children: map<char, nat>, symbol: Option<nat>)

  const EMPTY_NODE := ParameterizedPrefixNode(map[], None)

  /** The spelling that leads to a node, and the node it leads through. */
  datatype Path = Path(spelling: string, parent: nat)

  ghost predicate Shaped(nodes: seq<ParameterizedPrefixNode>, paths: seq<Path>) {
    && |paths| == |nodes| > 0
    && paths[0].spelling == ""
    && (forall k, l :: 0 <= k < l < |nodes| ==> paths[k].spelling != paths[l].spelling)
    && (forall k :: 0 < k < |nodes| ==> HangsOff(nodes, paths, k))
    && (forall k :: 0 <= k < |nodes| ==> EdgesLabelled(nodes, paths, k))
  }

  ghost predicate HangsOff(nodes: seq<ParameterizedPrefixNode>, paths: seq<Path>, k: nat)
    requires |paths| == |nodes| && k < |nodes|
  {
    var p, s := paths[k].parent, paths[k].spelling;
    && p < |nodes| && s != ""
    && paths[p].spelling == s[..|s| - 1]
    && s[|s| - 1] in nodes[p].children && nodes[p].children[s[|s| - 1]] == k
  }

  ghost predicate EdgesLabelled(nodes: seq<ParameterizedPrefixNode>, paths: seq<Path>, k: nat)
    requires |paths| == |nodes| && k < |nodes|
  {
    forall c :: c in nodes[k].children ==>
      0 < nodes[k].children[c] < |nodes| && paths[nodes[k].children[c]].spelling == paths[k].spelling + [c]
  }

  /** Each node stores the symbol of exactly the base that ends there. */
  ghost predicate Stores(nodes: seq<ParameterizedPrefixNode>, paths: seq<Path>, bases: map<string, nat>)
    requires |paths| == |nodes|
  {
    forall k :: 0 <= k < |nodes| ==>
      nodes[k].symbol == if paths[k].spelling in bases then Some(bases[paths[k].spelling]) else None
  }

  /** From every node on a base's path an edge leads on towards the base, down to length `depth`. */
  ghost predicate LeadsTo(nodes: seq<ParameterizedPrefixNode>, paths: seq<Path>, base: string, depth: nat)
    requires |paths| == |nodes| && depth <= |base|
  {
    forall k :: 0 <= k < |nodes| && |paths[k].spelling| < depth && paths[k].spelling <= base ==>
      base[|paths[k].spelling|] in nodes[k].children
  }

  ghost predicate Reaches(nodes: seq<ParameterizedPrefixNode>, paths: seq<Path>, bases: map<string, nat>)
    requires |paths| == |nodes|
  {
    forall b :: b in bases ==> LeadsTo(nodes, paths, b, |b|)
  }

  /** The groups a naive scan over the stored bases finds for a spelling; an empty base is never tested. */
  ghost function GroupsSpelling(bases: map<string, nat>, symbols: seq<Symbol>, spelling: string, depth: nat): set<nat> {
    set b | b in bases && 0 < |b| <= depth && bases[b] < |symbols| && Spells(symbols[bases[b]].Declared(), spelling)
      :: bases[b]
  }

  /** Each stored base names the group it stores. */
  ghost predicate BasesNameSymbols(bases: map<string, nat>, symbols: seq<Symbol>) {
    forall b :: b in bases ==>
      && bases[b] < |symbols|
      && symbols[bases[b]].id == bases[b] && symbols[bases[b]].name == b
      && symbols[bases[b]].parameterizedCount.Some?
  }

  class ParameterizedPrefixIndex {
    var nodes: seq<ParameterizedPrefixNode>
    ghost var paths: seq<Path>
    ghost var bases: map<string, nat>

    ghost predicate Valid()
      reads this
    {
      Shaped(nodes, paths) && Stores(nodes, paths, bases) && Reaches(nodes, paths, bases)
    }

    constructor ()
      ensures Valid() && bases == map[]
    {
      nodes := [EMPTY_NODE];
      paths := [Path("", 0)];
      bases := map[];
    }

    /** Insert one base, extending the trie along its spelling; the lowest symbol of a base is kept. */
    method IndexParameterizedBase(base: string, symbol: nat)
      requires Valid()
      modifies this
      ensures Valid()
      ensures bases == old(bases)[base := if base in old(bases) && old(bases)[base] <= symbol then old(bases)[base] else symbol]
    {
      var node := 0;
      for i := 0 to |base|
        invariant Shaped(nodes, paths) && Stores(nodes, paths, bases) && Reaches(nodes, paths, bases)
        invariant 0 <= node < |nodes| && paths[node].spelling == base[..i]
        invariant LeadsTo(nodes, paths, base, i) && bases == old(bases)
      {
        var c := base[i];
        assert base[..i + 1] == base[..i] + [c];
        if c in nodes[node].children {
          assert EdgesLabelled(nodes, paths, node);
          PathDone(nodes, paths, base, i, node);
          node := nodes[node].children[c];
        } else {
          var next := |nodes|;
          ghost var before, pathsBefore := nodes, paths;
          nodes := nodes[node := nodes[node].(children := nodes[node].children[c := next])] + [EMPTY_NODE];
          paths := paths + [Path(base[..i + 1], node)];
          EdgeAdded(before, pathsBefore, bases, base, i, node, nodes, paths);
          node := next;
        }
      }
      Store(base, symbol, node);
    }

    method Store(base: string, symbol: nat, node: nat)
      requires Valid() && node < |nodes|
      requires paths[node].spelling == base && LeadsTo(nodes, paths, base, |base|)
      modifies this
      ensures Valid()
      ensures bases == old(bases)[base := if base in old(bases) && old(bases)[base] <= symbol then old(bases)[base] else symbol]
    {
      ghost var before := nodes;
      nodes := nodes[node := nodes[node].(symbol := KeepEarliest(nodes[node].symbol, symbol))];
      bases := bases[base := if base in bases && bases[base] <= symbol then bases[base] else symbol];
      SymbolStored(before, paths, old(bases), base, node, nodes, bases);
    }

    /** The lowest-id group, among the bases that are nonempty prefixes of the spelling, that spells it. */
    method ParameterizedContaining(symbols: seq<Symbol>, spelling: string) returns (result: Option<nat>)
      requires Valid() && BasesNameSymbols(bases, symbols)
      ensures IsEarliest(result, GroupsSpelling(bases, symbols, spelling, |spelling|))
    {
      hide Shaped, Stores, Reaches, GroupsSpelling, Spells, ParseParameterizedIndex, BasesNameSymbols;
      result := None;
      var node := 0;
      RootPath(nodes, paths);
      NoShorterBase(bases, symbols, spelling);
      for i := 0 to |spelling|
        invariant 0 <= node < |nodes| == |paths| && paths[node].spelling == spelling[..i]
        invariant IsEarliest(result, GroupsSpelling(bases, symbols, spelling, i))
      {
        var c := spelling[i];
        assert spelling[..i + 1] == spelling[..i] + [c];
        if c !in nodes[node].children {
          NoLongerBase(nodes, paths, bases, symbols, spelling, i, node);
          break;
        }
        FollowEdge(nodes, paths, bases, symbols, spelling, i, node);
        node := nodes[node].children[c];
        if nodes[node].symbol.Some? {
          var candidate := symbols[nodes[node].symbol.value];
          var member := ParseParameterizedIndex(candidate.name, spelling);
          ContainsExact(candidate.name, candidate.parameterizedCount.value, spelling);
          if member.Some? && candidate.parameterizedCount.Some? && member.value < candidate.parameterizedCount.value {
            result := KeepEarliest(result, candidate.id);
          }
        }
      }
    }
  }

  lemma SymbolStored(nodes: seq<ParameterizedPrefixNode>, paths: seq<Path>, bases: map<string, nat>,
                     base: string, node: nat, after: seq<ParameterizedPrefixNode>, bases': map<string, nat>)
    requires Shaped(nodes, paths) && Stores(nodes, paths, bases) && Reaches(nodes, paths, bases)
    requires node < |nodes| && paths[node].spelling == base && LeadsTo(nodes, paths, base, |base|)
    requires base in bases' && bases' == bases[base := bases'[base]]
    requires after == nodes[node := nodes[node].(symbol := Some(bases'[base]))]
    ensures Shaped(after, paths) && Stores(after, paths, bases') && Reaches(after, paths, bases')
  {
    forall k | 0 < k < |nodes| ensures HangsOff(after, paths, k) {
      assert HangsOff(nodes, paths, k);
    }
    forall k | 0 <= k < |nodes| ensures EdgesLabelled(after, paths, k) {
      assert EdgesLabelled(nodes, paths, k);
    }
    forall b | b in bases' ensures LeadsTo(after, paths, b, |b|) {
      assert LeadsTo(nodes, paths, b, |b|);
    }
  }

  lemma PathDone(nodes: seq<ParameterizedPrefixNode>, paths: seq<Path>, base: string, i: nat, node: nat)
    requires Shaped(nodes, paths) && i < |base| && node < |nodes|
    requires paths[node].spelling == base[..i] && base[i] in nodes[node].children
    requires LeadsTo(nodes, paths, base, i)
    ensures LeadsTo(nodes, paths, base, i + 1)
  {
    forall k | 0 <= k < |nodes| && |paths[k].spelling| < i + 1 && paths[k].spelling <= base
      ensures base[|paths[k].spelling|] in nodes[k].children
    {
      if |paths[k].spelling| == i {
        assert paths[k].spelling == paths[node].spelling;
      }
    }
  }

  lemma EdgeAdded(nodes: seq<ParameterizedPrefixNode>, paths: seq<Path>, bases: map<string, nat>,
                  base: string, i: nat, node: nat,
                  after: seq<ParameterizedPrefixNode>, paths': seq<Path>)
    requires Shaped(nodes, paths) && Stores(nodes, paths, bases) && Reaches(nodes, paths, bases)
    requires i < |base| && node < |nodes|
    requires paths[node].spelling == base[..i] && base[i] !in nodes[node].children
    requires LeadsTo(nodes, paths, base, i)
    requires after == nodes[node := nodes[node].(children := nodes[node].children[base[i] := |nodes|])] + [EMPTY_NODE]
    requires paths' == paths + [Path(base[..i + 1], node)]
    ensures Shaped(after, paths') && Stores(after, paths', bases) && Reaches(after, paths', bases)
    ensures LeadsTo(after, paths', base, i + 1)
  {
    hide Shaped, Stores, Reaches, LeadsTo;
    EdgeAddedLeads(nodes, paths, base, i, node, after, paths');
    EdgeAddedShaped(nodes, paths, base, i, node, after, paths');
    EdgeAddedStores(nodes, paths, bases, base, i, node, after, paths');
    EdgeAddedReaches(nodes, paths, bases, base, i, node, after, paths');
  }

  /** The new node's spelling is no stored base, since a base through it would already have had the missing edge. */
  lemma EdgeAddedStores(nodes: seq<ParameterizedPrefixNode>, paths: seq<Path>, bases: map<string, nat>,
                        base: string, i: nat, node: nat,
                        after: seq<ParameterizedPrefixNode>, paths': seq<Path>)
    requires Shaped(nodes, paths) && Stores(nodes, paths, bases) && Reaches(nodes, paths, bases)
    requires i < |base| && node < |nodes|
    requires paths[node].spelling == base[..i] && base[i] !in nodes[node].children
    requires after == nodes[node := nodes[node].(children := nodes[node].children[base[i] := |nodes|])] + [EMPTY_NODE]
    requires paths' == paths + [Path(base[..i + 1], node)]
    ensures Stores(after, paths', bases)
  {
    NoBaseThrough(nodes, paths, bases, base, i, node);
  }

  lemma NoBaseThrough(nodes: seq<ParameterizedPrefixNode>, paths: seq<Path>, bases: map<string, nat>,
                      base: string, i: nat, node: nat)
    requires Shaped(nodes, paths) && Reaches(nodes, paths, bases)
    requires i < |base| && node < |nodes|
    requires paths[node].spelling == base[..i] && base[i] !in nodes[node].children
    ensures forall b :: b in bases ==> !(base[..i + 1] <= b)
  {
    assert base[..i + 1][..i] == base[..i] && base[..i + 1][i] == base[i];
    forall b | b in bases ensures !(base[..i + 1] <= b) {
      assert LeadsTo(nodes, paths, b, |b|);
    }
  }

  lemma EdgeAddedReaches(nodes: seq<ParameterizedPrefixNode>, paths: seq<Path>, bases: map<string, nat>,
                         base: string, i: nat, node: nat,
                         after: seq<ParameterizedPrefixNode>, paths': seq<Path>)
    requires Shaped(nodes, paths) && Reaches(nodes, paths, bases)
    requires i < |base| && node < |nodes|
    requires paths[node].spelling == base[..i] && base[i] !in nodes[node].children
    requires after == nodes[node := nodes[node].(children := nodes[node].children[base[i] := |nodes|])] + [EMPTY_NODE]
    requires paths' == paths + [Path(base[..i + 1], node)]
    ensures Reaches(after, paths', bases)
  {
    NoBaseThrough(nodes, paths, bases, base, i, node);
    forall b | b in bases ensures LeadsTo(after, paths', b, |b|) {
      assert LeadsTo(nodes, paths, b, |b|);
    }
  }

  lemma EdgeAddedLeads(nodes: seq<ParameterizedPrefixNode>, paths: seq<Path>, base: string, i: nat, node: nat,
                       after: seq<ParameterizedPrefixNode>, paths': seq<Path>)
    requires Shaped(nodes, paths) && i < |base| && node < |nodes|
    requires paths[node].spelling == base[..i] && LeadsTo(nodes, paths, base, i)
    requires after == nodes[node := nodes[node].(children := nodes[node].children[base[i] := |nodes|])] + [EMPTY_NODE]
    requires paths' == paths + [Path(base[..i + 1], node)]
    ensures LeadsTo(after, paths', base, i + 1)
  {
    forall k | 0 <= k < |after| && |paths'[k].spelling| < i + 1 && paths'[k].spelling <= base
      ensures base[|paths'[k].spelling|] in after[k].children
    {
      if |paths'[k].spelling| == i {
        assert paths'[k].spelling == paths[node].spelling;
      }
    }
  }

  lemma EdgeAddedShaped(nodes: seq<ParameterizedPrefixNode>, paths: seq<Path>,
                        base: string, i: nat, node: nat,
                        after: seq<ParameterizedPrefixNode>, paths': seq<Path>)
    requires Shaped(nodes, paths) && i < |base| && node < |nodes|
    requires paths[node].spelling == base[..i] && base[i] !in nodes[node].children
    requires after == nodes[node := nodes[node].(children := nodes[node].children[base[i] := |nodes|])] + [EMPTY_NODE]
    requires paths' == paths + [Path(base[..i + 1], node)]
    ensures Shaped(after, paths')
  {
    var s := base[..i + 1];
    assert s[..|s| - 1] == base[..i] && s == base[..i] + [base[i]];
    forall k | 0 <= k < |nodes| ensures paths[k].spelling != s {
      if k > 0 {
        assert HangsOff(nodes, paths, k);
      }
    }
    forall k | 0 < k < |after| ensures HangsOff(after, paths', k) {
      if k < |nodes| {
        assert HangsOff(nodes, paths, k);
      }
    }
    forall k | 0 <= k < |after| ensures EdgesLabelled(after, paths', k) {
      if k < |nodes| {
        assert EdgesLabelled(nodes, paths, k);
      }
    }
  }

  lemma RootPath(nodes: seq<ParameterizedPrefixNode>, paths: seq<Path>)
    requires Shaped(nodes, paths)
    ensures |nodes| == |paths| > 0 && paths[0].spelling == ""
  {
  }

  lemma NoShorterBase(bases: map<string, nat>, symbols: seq<Symbol>, spelling: string)
    ensures GroupsSpelling(bases, symbols, spelling, 0) == {}
  {
  }

  /** Where the trie has no edge for the next character, no longer prefix of the spelling is a base. */
  lemma NoLongerBase(nodes: seq<ParameterizedPrefixNode>, paths: seq<Path>, bases: map<string, nat>,
                     symbols: seq<Symbol>, spelling: string, i: nat, node: nat)
    requires Shaped(nodes, paths) && Reaches(nodes, paths, bases) && BasesNameSymbols(bases, symbols)
    requires i < |spelling| && node < |nodes|
    requires paths[node].spelling == spelling[..i] && spelling[i] !in nodes[node].children
    ensures GroupsSpelling(bases, symbols, spelling, |spelling|) == GroupsSpelling(bases, symbols, spelling, i)
  {
    forall b | b in bases && i < |b| ensures !(b <= spelling) {
      assert spelling[..i] <= spelling;
    }
  }

  /** One step along the spelling reaches the node of the next prefix, which stores the next candidate if there is one. */
  lemma FollowEdge(nodes: seq<ParameterizedPrefixNode>, paths: seq<Path>, bases: map<string, nat>,
                   symbols: seq<Symbol>, spelling: string, i: nat, node: nat)
    requires Shaped(nodes, paths) && Stores(nodes, paths, bases) && BasesNameSymbols(bases, symbols)
    requires i < |spelling| && node < |nodes|
    requires paths[node].spelling == spelling[..i] && spelling[i] in nodes[node].children
    ensures var next := nodes[node].children[spelling[i]];
      && next < |nodes| && paths[next].spelling == spelling[..i + 1]
      && GroupsSpelling(bases, symbols, spelling, i + 1) == GroupsSpelling(bases, symbols, spelling, i)
        + (match nodes[next].symbol
           case None => {}
           case Some(s) => if s < |symbols| && Spells(symbols[s].Declared(), spelling) then {s} else {})
      && (nodes[next].symbol.Some? ==>
            && nodes[next].symbol.value < |symbols|
            && symbols[nodes[next].symbol.value].id == nodes[next].symbol.value
            && symbols[nodes[next].symbol.value].parameterizedCount.Some?)
  {
    assert EdgesLabelled(nodes, paths, node);
    DepthStep(bases, symbols, spelling, i);
  }

  lemma DepthStep(bases: map<string, nat>, symbols: seq<Symbol>, spelling: string, i: nat)
    requires BasesNameSymbols(bases, symbols) && i < |spelling|
    ensures var b := spelling[..i + 1];
      GroupsSpelling(bases, symbols, spelling, i + 1) == GroupsSpelling(bases, symbols, spelling, i)
        + (if b in bases && Spells(symbols[bases[b]].Declared(), spelling) then {bases[b]} else {})
  {
    forall b | b in bases && |b| == i + 1 && Spells(symbols[bases[b]].Declared(), spelling)
      ensures b == spelling[..i + 1]
    {
      assert b <= spelling;
    }
  }

  /**
   * Why declared names must be nonempty: whatever else is stored, a group with the empty base is never the search's answer,
   * although it stands for a spelling as soon as it has a member.
   */
  lemma EmptyBaseIsNeverFound(bases: map<string, nat>, symbols: seq<Symbol>, spelling: string, answer: Option<nat>)
    requires "" in bases && BasesNameSymbols(bases, symbols)
    requires IsEarliest(answer, GroupsSpelling(bases, symbols, spelling, |spelling|))
    ensures answer != Some(bases[""])
    ensures symbols[bases[""]].parameterizedCount.value > 0 ==> Spells(symbols[bases[""]].Declared(), "0")
  {
    assert "0" == "" + Decimal(0);
  }
}
