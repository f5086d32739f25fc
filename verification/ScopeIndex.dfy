/** The lookup and overlap indexes of one lexical scope, and the naive scans they must agree with. */
module ScopeIndex {
  import opened Common
  import opened MemberNames
  import opened Symbols
  import opened NumericMemberTrie
  import opened ParameterizedPrefixTrie

  datatype SymbolLookup = SymbolLookup(symbol: nat, parameterizedIndex: Option<u32>)

  /** The declarations of one scope, by symbol id. */
  type Members = map<nat, DeclaredName>

  ghost function OrdinaryIds(members: Members, name: string): set<nat> {
    set id | id in members && members[id] == DeclaredName(name, None)
  }

  ghost function GroupIds(members: Members, base: string): set<nat> {
    set id | id in members && members[id].name == base && members[id].count.Some?
  }

  ghost function ExactIds(members: Members, d: DeclaredName): set<nat> {
    if d.count.Some? then GroupIds(members, d.name) else OrdinaryIds(members, d.name)
  }

  ghost function GroupsCovering(members: Members, name: string): set<nat> {
    set id | id in members && members[id].count.Some? && Spells(members[id], name)
  }

  ghost function OverlappingIds(members: Members, d: DeclaredName): set<nat> {
    set id | id in members && SymbolNameSetsOverlap(members[id], d)
  }

  /** What a scan over one scope's declarations answers: the exact one, else the lowest covering group. */
  ghost predicate IsLocalLookup(r: Option<SymbolLookup>, members: Members, name: string) {
    if OrdinaryIds(members, name) != {} then
      && r.Some? && r.value.parameterizedIndex.None?
      && IsEarliest(Some(r.value.symbol), OrdinaryIds(members, name))
    else if GroupsCovering(members, name) != {} then
      && r.Some? && r.value.parameterizedIndex.Some?
      && IsEarliest(Some(r.value.symbol), GroupsCovering(members, name))
      && name == members[r.value.symbol].name + Decimal(r.value.parameterizedIndex.value)
    else
      r.None?
  }

  /** No two declarations of the scope have the same spelling in the same form. */
  ghost predicate DistinctForms(members: Members) {
    forall i, j :: i in members && j in members && i != j ==>
      members[i].name != members[j].name || members[i].count.Some? != members[j].count.Some?
  }

  function Get<K, V>(m: map<K, V>, k: K): Option<V> {
    if k in m then Some(m[k]) else None
  }

  /** The number under which a declaration is filed for the group base `base`. */
  function FiledMember(d: DeclaredName, base: string): Option<u32> {
    if d.count.None? then ParseParameterizedIndex(base, d.name)
    else if d.count.value != 0 then ParseParameterizedIndex(base, d.name + "0")
    else None
  }

  ghost function FiledEntries(members: Members, base: string): set<Entry> {
    set id | id in members && FiledMember(members[id], base).Some? :: (FiledMember(members[id], base).value, id)
  }

  function OneEntry(member: Option<u32>, id: nat): set<Entry> {
    if member.Some? then {(member.value, id)} else {}
  }

  /** The indexed declarations are the stored symbols of the same ids. */
  ghost predicate MembersAreSymbols(members: Members, symbols: seq<Symbol>) {
    forall id :: id in members ==>
      id < |symbols| && symbols[id].id == id && symbols[id].Declared() == members[id]
  }

  /** The entries filed under one base. */
  ghost function EntriesAt(filed: map<string, set<Entry>>, base: string): set<Entry> {
    if base in filed then filed[base] else {}
  }

  /** The exact maps and the filed entries are those of the members, which are named and of distinct forms. */
  ghost predicate Reflects(ordinary: map<string, nat>, groups: map<string, nat>, filed: map<string, set<Entry>>,
                           members: Members)
  {
    && (forall id :: id in members ==> members[id].name != "") && DistinctForms(members)
    && (forall s :: IsEarliest(Get(ordinary, s), OrdinaryIds(members, s)))
    && (forall s :: IsEarliest(Get(groups, s), GroupIds(members, s)))
    && (forall b :: b != "" ==> EntriesAt(filed, b) == FiledEntries(members, b))
  }

  /** `m` with `k` given a value unless it has one. */
  function Emplace(m: map<string, nat>, k: string, v: nat): map<string, nat> {
    if k in m then m else m[k := v]
  }

  class ScopeNameIndex {
    var ordinaryExact: map<string, nat>
    var parameterizedExact: map<string, nat>
    const parameterizedPrefixes: ParameterizedPrefixIndex
    var memberPrefixes: map<string, NumericMemberIndex>
    ghost var filed: map<string, set<Entry>>
    ghost var members: Members
    ghost var Repr: set<object>

    /** Every base has a trie of its own, holding the entries filed under that base. */
    ghost predicate Tries()
      reads this, memberPrefixes.Values
    {
      && filed.Keys == memberPrefixes.Keys
      && (forall b :: b in memberPrefixes ==> memberPrefixes[b].Valid() && memberPrefixes[b].entries == filed[b])
      && (forall b, c :: b in memberPrefixes && c in memberPrefixes && b != c ==> memberPrefixes[b] != memberPrefixes[c])
    }

    ghost predicate Owned()
      reads this, Repr
    {
      && this in Repr && parameterizedPrefixes in Repr && memberPrefixes.Values <= Repr
      && Tries() && parameterizedPrefixes.Valid()
    }

    ghost predicate Valid()
      reads this, Repr
      ensures Valid() ==> this in Repr
    {
      && Owned() && parameterizedPrefixes.bases == parameterizedExact
      && Reflects(ordinaryExact, parameterizedExact, filed, members)
    }

    constructor ()
      ensures Valid() && fresh(Repr) && members == map[]
    {
      ordinaryExact, parameterizedExact, memberPrefixes := map[], map[], map[];
      var prefixes := new ParameterizedPrefixIndex();
      parameterizedPrefixes := prefixes;
      members, filed := map[], map[];
      Repr := {this, prefixes};
    }

    /** The first declaration of exactly this spelling and form. */
    method ExactSymbol(d: DeclaredName) returns (r: Option<nat>)
      requires Valid()
      ensures IsEarliest(r, ExactIds(members, d))
    {
      r := if d.count.Some? then Get(parameterizedExact, d.name) else Get(ordinaryExact, d.name);
    }

    /** Give a base an empty trie on first use. */
    method EnsureTrie(base: string)
      requires Tries()
      modifies this`memberPrefixes, this`filed
      ensures Tries() && fresh(memberPrefixes.Values - old(memberPrefixes.Values))
      ensures base in filed
      ensures forall b :: EntriesAt(filed, b) == EntriesAt(old(filed), b)
    {
      hide NumericMemberTrie.Shaped, NumericMemberTrie.Accounts;
      if base !in memberPrefixes {
        var created := new NumericMemberIndex();
        memberPrefixes := memberPrefixes[base := created];
        filed := filed[base := {}];
      }
    }

    method InsertMember(base: string, member: u32, symbol: nat)
      requires Tries() && base in memberPrefixes
      modifies this`filed, memberPrefixes[base]
      ensures Tries()
      ensures filed == old(filed)[base := old(filed)[base] + {(member, symbol)}]
    {
      hide NumericMemberTrie.Shaped, NumericMemberTrie.Accounts;
      memberPrefixes[base].IndexMemberNumber(member, symbol);
      filed := filed[base := filed[base] + {(member, symbol)}];
    }

    /** File one member number under one base. */
    method FileMember(base: string, member: u32, symbol: nat)
      requires Tries()
      modifies this`memberPrefixes, this`filed, memberPrefixes.Values
      ensures Tries() && fresh(memberPrefixes.Values - old(memberPrefixes.Values))
      ensures FiledUnder(old(filed), filed, base, (member, symbol))
    {
      hide NumericMemberTrie.Shaped, NumericMemberTrie.Accounts;
      EnsureTrie(base);
      InsertMember(base, member, symbol);
    }

    /** File one actual spelling under every base of which it is a member. */
    method IndexMemberSpelling(spelling: string, symbol: nat)
      requires Tries()
      modifies this`memberPrefixes, this`filed, memberPrefixes.Values
      ensures Tries() && fresh(memberPrefixes.Values - old(memberPrefixes.Values))
      ensures forall b :: b != "" ==>
        EntriesAt(filed, b) == EntriesAt(old(filed), b) + OneEntry(ParseParameterizedIndex(b, spelling), symbol)
    {
      hide NumericMemberTrie.Shaped, NumericMemberTrie.Accounts;
      var baseLength := if |spelling| > 11 then |spelling| - 10 else 1;
      while baseLength < |spelling|
        invariant baseLength >= 1
        invariant Tries() && fresh(memberPrefixes.Values - old(memberPrefixes.Values))
        invariant FiledBelow(old(filed), filed, spelling, symbol, baseLength)
      {
        var base := spelling[..baseLength];
        var member := ParseParameterizedIndex(base, spelling);
        ghost var before := filed;
        if member.Some? {
          FileMember(base, member.value, symbol);
        }
        FiledStep(old(filed), before, filed, spelling, symbol, baseLength);
        baseLength := baseLength + 1;
      }
    }

    /** Add one non-metadata declaration, whose id is above every id indexed so far. */
    method IndexSymbol(id: nat, d: DeclaredName)
      requires Valid() && d.name != ""
      requires forall m :: m in members ==> m < id
      requires ExactIds(members, d) == {}
      modifies Repr
      ensures Valid() && fresh(Repr - old(Repr))
      ensures members == old(members)[id := d]
    {
      hide NumericMemberTrie.Shaped, NumericMemberTrie.Accounts, NumericMemberIndex.Valid, ParameterizedPrefixIndex.Valid;
      hide ParameterizedPrefixTrie.Shaped, ParameterizedPrefixTrie.Stores, ParameterizedPrefixTrie.Reaches;
      ExactAbsent(ordinaryExact, parameterizedExact, filed, members, d);
      hide Reflects, DistinctForms, ScopeNameIndex.Tries;
      if d.count.None? {
        IndexOrdinary(id, d.name);
      } else {
        IndexGroup(id, d);
      }
      ReflectsOneMore(old(ordinaryExact), old(parameterizedExact), old(filed), members, id, d,
        ordinaryExact, parameterizedExact, filed);
      members := members[id := d];
    }

    method IndexOrdinary(id: nat, name: string)
      requires Owned() && parameterizedPrefixes.bases == parameterizedExact
      modifies Repr
      ensures Owned() && fresh(Repr - old(Repr)) && parameterizedPrefixes.bases == parameterizedExact
      ensures parameterizedExact == old(parameterizedExact) && members == old(members)
      ensures ordinaryExact == Emplace(old(ordinaryExact), name, id)
      ensures forall b :: b != "" ==>
        EntriesAt(filed, b) == EntriesAt(old(filed), b) + OneEntry(FiledMember(DeclaredName(name, None), b), id)
    {
      hide NumericMemberTrie.Shaped, NumericMemberTrie.Accounts, NumericMemberIndex.Valid, ParameterizedPrefixIndex.Valid;
      hide ParameterizedPrefixTrie.Shaped, ParameterizedPrefixTrie.Stores, ParameterizedPrefixTrie.Reaches;
      ordinaryExact := Emplace(ordinaryExact, name, id);
      IndexMemberSpelling(name, id);
      Repr := Repr + memberPrefixes.Values;
    }

    method IndexGroup(id: nat, d: DeclaredName)
      requires Owned() && parameterizedPrefixes.bases == parameterizedExact
      requires d.count.Some? && d.name !in parameterizedExact
      modifies Repr
      ensures Owned() && fresh(Repr - old(Repr)) && parameterizedPrefixes.bases == parameterizedExact
      ensures ordinaryExact == old(ordinaryExact) && members == old(members)
      ensures parameterizedExact == Emplace(old(parameterizedExact), d.name, id)
      ensures forall b :: b != "" ==>
        EntriesAt(filed, b) == EntriesAt(old(filed), b) + OneEntry(FiledMember(d, b), id)
    {
      hide NumericMemberTrie.Shaped, NumericMemberTrie.Accounts, NumericMemberIndex.Valid, ParameterizedPrefixIndex.Valid;
      hide ParameterizedPrefixTrie.Shaped, ParameterizedPrefixTrie.Stores, ParameterizedPrefixTrie.Reaches;
      parameterizedExact := Emplace(parameterizedExact, d.name, id);
      parameterizedPrefixes.IndexParameterizedBase(d.name, id);
      if d.count.value != 0 {
        IndexMemberSpelling(d.name + "0", id);
      }
      Repr := Repr + memberPrefixes.Values;
    }

    /** The lowest declaration whose spellings meet the candidate's, when none is exactly the candidate. */
    method OverlappingSymbol(symbols: seq<Symbol>, d: DeclaredName) returns (r: Option<nat>)
      requires Valid() && MembersAreSymbols(members, symbols) && d.name != ""
      requires ExactIds(members, d) == {}
      ensures IsEarliest(r, OverlappingIds(members, d))
    {
      hide NumericMemberTrie.Shaped, NumericMemberTrie.Accounts;
      hide ParameterizedPrefixTrie.Shaped, ParameterizedPrefixTrie.Stores, ParameterizedPrefixTrie.Reaches;
      BasesAreSymbols(symbols);
      if d.count.None? {
        r := parameterizedPrefixes.ParameterizedContaining(symbols, d.name);
        GroupsAreCovering(symbols, d.name);
        OverlapsOfOrdinary(members, d);
        return;
      }
      if d.count.value == 0 {
        return None;
      }
      r := None;
      var containing := parameterizedPrefixes.ParameterizedContaining(symbols, d.name + "0");
      GroupsAreCovering(symbols, d.name + "0");
      if containing.Some? {
        r := KeepEarliestOf(r, containing.value, {}, GroupsCovering(members, d.name + "0"));
      }
      OverlapsOfGroup(members, d);
      assert EntriesAt(filed, d.name) == FiledEntries(members, d.name);
      if d.name in memberPrefixes {
        var below := memberPrefixes[d.name].EarliestMemberBelow(d.count.value);
        if below.Some? {
          r := KeepEarliestOf(r, below.value, GroupsCovering(members, d.name + "0"),
            SymbolsBelow(FiledEntries(members, d.name), d.count.value));
        }
      }
    }

    /** The one-scope part of a lookup: the exact name first, then the lowest group that spells it. */
    method LocalLookup(symbols: seq<Symbol>, name: string) returns (r: Option<SymbolLookup>)
      requires Valid() && MembersAreSymbols(members, symbols)
      ensures IsLocalLookup(r, members, name)
    {
      hide NumericMemberTrie.Shaped, NumericMemberTrie.Accounts;
      hide ParameterizedPrefixTrie.Shaped, ParameterizedPrefixTrie.Stores, ParameterizedPrefixTrie.Reaches;
      if name in ordinaryExact {
        return Some(SymbolLookup(ordinaryExact[name], None));
      }
      BasesAreSymbols(symbols);
      if |parameterizedExact| == 1 {
        var base :| base in parameterizedExact;
        var symbol := symbols[parameterizedExact[base]];
        var member := ParseParameterizedIndex(symbol.name, name);
        OnlyGroup(base);
        ContainsExact(symbol.name, symbol.parameterizedCount.value, name);
        if member.Some? && symbol.parameterizedCount.Some? && member.value < symbol.parameterizedCount.value {
          CoveringIndex(symbol.Declared(), name);
          assert parameterizedExact[base] in GroupsCovering(members, name);
          return Some(SymbolLookup(symbol.id, member));
        }
        return None;
      }
      var group := parameterizedPrefixes.ParameterizedContaining(symbols, name);
      GroupsAreCovering(symbols, name);
      if group.Some? {
        var symbol := symbols[group.value];
        CoveringIndex(symbol.Declared(), name);
        return Some(SymbolLookup(group.value, ParseParameterizedIndex(symbol.name, name)));
      }
      return None;
    }

    /** With a single base in the exact map, its group is the only one in the scope. */
    lemma OnlyGroup(base: string)
      requires Valid() && |parameterizedExact| == 1 && base in parameterizedExact
      ensures parameterizedExact[base] in members
      ensures forall id :: id in members && members[id].count.Some? ==> id == parameterizedExact[base]
    {
      hide NumericMemberTrie.Shaped, NumericMemberTrie.Accounts;
      hide ParameterizedPrefixTrie.Shaped, ParameterizedPrefixTrie.Stores, ParameterizedPrefixTrie.Reaches;
      assert IsEarliest(Get(parameterizedExact, base), GroupIds(members, base));
      assert |parameterizedExact.Keys - {base}| == 0;
      assert parameterizedExact.Keys == {base};
      forall id | id in members && members[id].count.Some?
        ensures id == parameterizedExact[base]
      {
        var other := members[id].name;
        assert IsEarliest(Get(parameterizedExact, other), GroupIds(members, other));
        assert id in GroupIds(members, other);
        assert other in parameterizedExact.Keys;
      }
    }

    /** Each trie base names the group it stores. */
    lemma BasesAreSymbols(symbols: seq<Symbol>)
      requires Valid() && MembersAreSymbols(members, symbols)
      ensures BasesNameSymbols(parameterizedPrefixes.bases, symbols)
    {
      hide NumericMemberTrie.Shaped, NumericMemberTrie.Accounts;
      hide ParameterizedPrefixTrie.Shaped, ParameterizedPrefixTrie.Stores, ParameterizedPrefixTrie.Reaches;
      forall b | b in parameterizedExact
        ensures parameterizedExact[b] in GroupIds(members, b)
      {
        assert IsEarliest(Get(parameterizedExact, b), GroupIds(members, b));
      }
    }

    /** The trie's candidates are all the groups of the scope that spell the name. */
    lemma GroupsAreCovering(symbols: seq<Symbol>, name: string)
      requires Valid() && MembersAreSymbols(members, symbols)
      ensures GroupsSpelling(parameterizedPrefixes.bases, symbols, name, |name|) == GroupsCovering(members, name)
    {
      hide NumericMemberTrie.Shaped, NumericMemberTrie.Accounts;
      hide ParameterizedPrefixTrie.Shaped, ParameterizedPrefixTrie.Stores, ParameterizedPrefixTrie.Reaches;
      BasesAreSymbols(symbols);
      forall id | id in GroupsCovering(members, name)
        ensures id in GroupsSpelling(parameterizedPrefixes.bases, symbols, name, |name|)
      {
        var base := members[id].name;
        assert id in GroupIds(members, base);
        assert IsEarliest(Get(parameterizedExact, base), GroupIds(members, base));
        assert parameterizedExact[base] == id;
        assert base <= name;
      }
      forall b | b in parameterizedExact
        ensures parameterizedExact[b] in members
      {
        assert IsEarliest(Get(parameterizedExact, b), GroupIds(members, b));
      }
    }
  }

  /** One entry has been filed under `base`, and nothing else has changed. */
  ghost predicate FiledUnder(before: map<string, set<Entry>>, after: map<string, set<Entry>>, base: string, e: Entry) {
    forall b :: EntriesAt(after, b) == EntriesAt(before, b) + (if b == base then {e} else {})
  }

  /** The spelling has been filed under its bases shorter than `length`, and nowhere else. */
  ghost predicate FiledBelow(before: map<string, set<Entry>>, after: map<string, set<Entry>>,
                             spelling: string, symbol: nat, length: nat)
  {
    forall b :: b != "" ==>
      EntriesAt(after, b) == EntriesAt(before, b)
        + (if |b| < length then OneEntry(ParseParameterizedIndex(b, spelling), symbol) else {})
  }

  lemma FiledStep(start: map<string, set<Entry>>, before: map<string, set<Entry>>, after: map<string, set<Entry>>,
                  spelling: string, symbol: nat, length: nat)
    requires 0 < length < |spelling| && FiledBelow(start, before, spelling, symbol, length)
    requires var base, member := spelling[..length], ParseParameterizedIndex(spelling[..length], spelling);
      if member.Some? then FiledUnder(before, after, base, (member.value, symbol)) else after == before
    ensures FiledBelow(start, after, spelling, symbol, length + 1)
  {
    forall b | b != ""
      ensures EntriesAt(after, b) == EntriesAt(start, b)
        + (if |b| < length + 1 then OneEntry(ParseParameterizedIndex(b, spelling), symbol) else {})
    {
      if |b| == length && b <= spelling {
        assert b == spelling[..length];
      }
    }
  }

  /** A group that spells a name spells it with the member number that the index parse finds. */
  lemma CoveringIndex(d: DeclaredName, name: string)
    requires d.count.Some? && Spells(d, name)
    ensures var r := ParseParameterizedIndex(d.name, name);
      r.Some? && name == d.name + Decimal(r.value)
  {
    ContainsExact(d.name, d.count.value, name);
    ParseParameterizedIndexExact(d.name, name, ParseParameterizedIndex(d.name, name).value);
  }

  lemma OrdinaryExtend(members: Members, id: nat, d: DeclaredName, s: string)
    requires id !in members
    ensures OrdinaryIds(members[id := d], s) == OrdinaryIds(members, s) + (if d == DeclaredName(s, None) then {id} else {})
  {
  }

  lemma GroupExtend(members: Members, id: nat, d: DeclaredName, s: string)
    requires id !in members
    ensures GroupIds(members[id := d], s) == GroupIds(members, s) + (if d.name == s && d.count.Some? then {id} else {})
  {
  }

  /** Emplacing one declaration's spellings keeps the maps in step with the members. */
  lemma ReflectsOneMore(ordinary: map<string, nat>, groups: map<string, nat>, filed: map<string, set<Entry>>,
                        members: Members, id: nat, d: DeclaredName,
                        ordinary': map<string, nat>, groups': map<string, nat>, filed': map<string, set<Entry>>)
    requires Reflects(ordinary, groups, filed, members)
    requires d.name != "" && ExactIds(members, d) == {} && forall m :: m in members ==> m < id
    requires ordinary' == if d.count.None? then Emplace(ordinary, d.name, id) else ordinary
    requires groups' == if d.count.Some? then Emplace(groups, d.name, id) else groups
    requires forall b :: b != "" ==> EntriesAt(filed', b) == EntriesAt(filed, b) + OneEntry(FiledMember(d, b), id)
    ensures Reflects(ordinary', groups', filed', members[id := d])
  {
    forall s
      ensures IsEarliest(Get(ordinary', s), OrdinaryIds(members[id := d], s))
      ensures IsEarliest(Get(groups', s), GroupIds(members[id := d], s))
    {
      OrdinaryExtend(members, id, d, s);
      GroupExtend(members, id, d, s);
      assert IsEarliest(Get(ordinary, s), OrdinaryIds(members, s));
      assert IsEarliest(Get(groups, s), GroupIds(members, s));
    }
    forall b | b != "" ensures EntriesAt(filed', b) == FiledEntries(members[id := d], b) {
      FiledExtend(members, id, d, b);
    }
    StillDistinct(members, id, d);
  }

  lemma ExactAbsent(ordinary: map<string, nat>, groups: map<string, nat>, filed: map<string, set<Entry>>,
                    members: Members, d: DeclaredName)
    requires Reflects(ordinary, groups, filed, members) && ExactIds(members, d) == {}
    ensures d.name !in if d.count.Some? then groups else ordinary
  {
    assert IsEarliest(Get(ordinary, d.name), OrdinaryIds(members, d.name));
    assert IsEarliest(Get(groups, d.name), GroupIds(members, d.name));
  }

  lemma StillDistinct(members: Members, id: nat, d: DeclaredName)
    requires DistinctForms(members) && ExactIds(members, d) == {} && id !in members
    ensures DistinctForms(members[id := d])
  {
    assert forall i :: i in members ==> i !in ExactIds(members, d);
  }

  lemma FiledExtend(members: Members, id: nat, d: DeclaredName, b: string)
    requires id !in members
    ensures FiledEntries(members[id := d], b) == FiledEntries(members, b) + OneEntry(FiledMember(d, b), id)
  {
    var after := members[id := d];
    forall e | e in FiledEntries(members, b) + OneEntry(FiledMember(d, b), id)
      ensures e in FiledEntries(after, b)
    {
      assert e.1 in after && FiledMember(after[e.1], b) == Some(e.0);
    }
    assert forall e :: e in FiledEntries(after, b) && e.1 != id ==> e.1 in members && FiledMember(members[e.1], b) == Some(e.0);
  }

  /** A candidate spelling that nothing else is exactly meets only the groups that spell it. */
  lemma OverlapsOfOrdinary(members: Members, d: DeclaredName)
    requires d.count.None? && OrdinaryIds(members, d.name) == {}
    ensures OverlappingIds(members, d) == GroupsCovering(members, d.name)
  {
    forall id | id in members
      ensures SymbolNameSetsOverlap(members[id], d) <==> members[id].count.Some? && Spells(members[id], d.name)
    {
      if members[id].count.Some? {
        ContainsExact(members[id].name, members[id].count.value, d.name);
      } else {
        assert id !in OrdinaryIds(members, d.name);
      }
    }
  }

  /** A group candidate meets the groups holding its first member and the filed members below its count. */
  lemma OverlapsOfGroup(members: Members, d: DeclaredName)
    requires d.count.Some? && d.count.value != 0
    ensures OverlappingIds(members, d)
      == GroupsCovering(members, d.name + "0") + SymbolsBelow(FiledEntries(members, d.name), d.count.value)
  {
    var below := SymbolsBelow(FiledEntries(members, d.name), d.count.value);
    forall id | id in members
      ensures id in below <==> FiledMember(members[id], d.name).Some? && FiledMember(members[id], d.name).value < d.count.value
    {
      if FiledMember(members[id], d.name).Some? {
        assert (FiledMember(members[id], d.name).value, id) in FiledEntries(members, d.name);
      }
    }
    forall id | id in members && members[id].count.Some?
      ensures ParameterizedNameContains(members[id].name, members[id].count.value, d.name + "0")
        <==> Spells(members[id], d.name + "0")
    {
      ContainsExact(members[id].name, members[id].count.value, d.name + "0");
    }
  }
}
