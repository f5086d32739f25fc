/** The sparse binary trie of 32-bit member numbers, each node caching its lowest symbol id. */
module NumericMemberTrie {
  import opened Common

  /** `m >> h`: the label of the height-`h` subtree that holds the member `m`. */
  function Prefix(m: nat, h: nat): nat {
    if h == 0 then m else Prefix(m, h - 1) / 2
  }

  /** `(m >> h) & 1`. */
  function Bit(m: nat, h: nat): (b: nat)
    ensures b < 2
  {
    Prefix(m, h) % 2
  }

  lemma PrefixStep(m: nat, h: nat)
    requires h > 0
    ensures Prefix(m, h - 1) == 2 * Prefix(m, h) + Bit(m, h - 1)
  {
  }

  function Pow2(h: nat): nat {
    if h == 0 then 1 else 2 * Pow2(h - 1)
  }

  lemma {:induction false} PrefixBound(m: nat, h: nat, k: nat)
    requires m < Pow2(h + k)
    ensures Prefix(m, h) < Pow2(k)
  {
    if h > 0 {
      PrefixBound(m, h - 1, k + 1);
    }
  }

  lemma PrefixTop(m: u32)
    ensures Prefix(m, 32) == 0
  {
    assert Pow2(32) == 0x1_0000_0000 by {
      assert Pow2(8) == 0x100;
      assert Pow2(16) == 0x1_0000;
      assert Pow2(24) == 0x100_0000;
    }
    PrefixBound(m, 32, 0);
  }

  lemma {:induction false} PrefixMonotone(m: nat, n: nat, h: nat)
    requires m <= n
    ensures Prefix(m, h) <= Prefix(n, h)
  {
    if h > 0 {
      PrefixMonotone(m, n, h - 1);
    }
  }

  datatype NumericMemberIndexNode =
    NumericMemberIndexNode(child0: Option<nat>, child1: Option<nat>, earliestSymbol: Option<nat>)
  {
    function Child(branch: nat): Option<nat>
      requires branch < 2
    {
      if branch == 0 then child0 else child1
    }

    function WithChild(branch: nat, next: nat): NumericMemberIndexNode
      requires branch < 2
    {
      if branch == 0 then this.(child0 := Some(next)) else this.(child1 := Some(next))
    }
  }

  const EMPTY_NODE := NumericMemberIndexNode(None, None, None)

  /** Where a node sits: its height above the leaves, the member prefix it stands for, and the edge into it. */
  datatype Label = Label(height: nat, prefix: nat, parent: nat, branch: nat)

  /** An inserted member number and the symbol it belongs to. */
  type Entry = (u32, nat)

  ghost predicate Under(e: Entry, h: nat, p: nat) {
    Prefix(e.0, h) == p
  }

  ghost function SymbolsUnder(entries: set<Entry>, h: nat, p: nat): set<nat> {
    set e | e in entries && Under(e, h, p) :: e.1
  }

  ghost function SymbolsBelow(entries: set<Entry>, limit: nat): set<nat> {
    set e: Entry | e in entries && e.0 < limit :: e.1
  }

  /** The symbols whose members precede, at height `h`, the subtree that holds `limit`. */
  ghost function SymbolsBefore(entries: set<Entry>, limit: nat, h: nat): set<nat> {
    set e: Entry | e in entries && Prefix(e.0, h) < Prefix(limit, h) :: e.1
  }

  /** Every node has its own label, and every non-root node hangs off its parent. */
  ghost predicate Shaped(nodes: seq<NumericMemberIndexNode>, labels: seq<Label>) {
    && |labels| == |nodes| > 0
    && labels[0].height == 32 && labels[0].prefix == 0
    && (forall k :: 0 <= k < |nodes| ==> labels[k].height <= 32)
    && (forall k, l :: 0 <= k < l < |nodes| ==>
          labels[k].height != labels[l].height || labels[k].prefix != labels[l].prefix)
    && (forall k :: 0 < k < |nodes| ==> HangsOff(nodes, labels, k))
    && (forall k, b :: 0 <= k < |nodes| && 0 <= b < 2 ==> ChildLabelled(nodes, labels, k, b))
  }

  ghost predicate HangsOff(nodes: seq<NumericMemberIndexNode>, labels: seq<Label>, k: nat)
    requires |labels| == |nodes| && k < |nodes|
  {
    var p, b := labels[k].parent, labels[k].branch;
    && p < |nodes| && b < 2 && labels[k].height < 32
    && labels[p].height == labels[k].height + 1
    && labels[k].prefix == 2 * labels[p].prefix + b
    && nodes[p].Child(b) == Some(k)
  }

  ghost predicate ChildLabelled(nodes: seq<NumericMemberIndexNode>, labels: seq<Label>, k: nat, b: nat)
    requires |labels| == |nodes| && k < |nodes| && b < 2
  {
    match nodes[k].Child(b)
    case None => true
    case Some(c) =>
      && 0 < c < |nodes| && labels[k].height > 0
      && labels[c].height == labels[k].height - 1 && labels[c].prefix == 2 * labels[k].prefix + b
  }

  /** A node has a child on each side on which an entry lies below it. */
  ghost predicate Branches(node: NumericMemberIndexNode, at: Label, es: set<Entry>) {
    at.height > 0 ==>
      && (node.child0.None? ==> SymbolsUnder(es, at.height - 1, 2 * at.prefix) == {})
      && (node.child1.None? ==> SymbolsUnder(es, at.height - 1, 2 * at.prefix + 1) == {})
  }

  /** A node caches the least symbol id inserted below it. */
  ghost predicate Caches(node: NumericMemberIndexNode, at: Label, es: set<Entry>) {
    IsEarliest(node.earliestSymbol, SymbolsUnder(es, at.height, at.prefix))
  }

  /** Down to height `h` the trie accounts for `high`, below it for `low`; only node `blank` may lack a minimum. */
  ghost predicate Accounts(nodes: seq<NumericMemberIndexNode>, labels: seq<Label>, h: int,
                           high: set<Entry>, low: set<Entry>, blank: nat)
    requires |labels| == |nodes|
  {
    && (forall k :: 0 <= k < |nodes| ==>
          Branches(nodes[k], labels[k], if labels[k].height > h then high else low))
    && (forall k :: 0 <= k < |nodes| ==>
          Caches(nodes[k], labels[k], if labels[k].height >= h then high else low))
    && (forall k :: 0 <= k < |nodes| && k != blank ==> k == 0 || nodes[k].earliestSymbol.Some?)
  }

  lemma UnderExtends(entries: set<Entry>, member: u32, symbol: nat, h: nat, p: nat)
    ensures SymbolsUnder(entries + {(member, symbol)}, h, p)
      == SymbolsUnder(entries, h, p) + (if Prefix(member, h) == p then {symbol} else {})
  {
    assert Under((member, symbol), h, p) <==> Prefix(member, h) == p;
    assert (member, symbol) in entries + {(member, symbol)};
  }

  class NumericMemberIndex {
    var nodes: seq<NumericMemberIndexNode>
    ghost var labels: seq<Label>
    ghost var entries: set<Entry>

    ghost predicate Valid()
      reads this
    {
      Shaped(nodes, labels) && Accounts(nodes, labels, 0, entries, entries, 0)
    }

    constructor ()
      ensures Valid() && entries == {}
    {
      nodes := [EMPTY_NODE];
      labels := [Label(32, 0, 0, 0)];
      entries := {};
    }

    /** Insert one member number, creating the missing path and lowering every cached minimum on it. */
    method IndexMemberNumber(member: u32, symbol: nat)
      requires Valid()
      modifies this
      ensures Valid() && entries == old(entries) + {(member, symbol)}
    {
      ghost var all := entries + {(member, symbol)};
      LowerRoot(member, symbol);
      var node, bit := 0, 31;
      while bit >= 0
        invariant -1 <= bit <= 31 && 0 <= node < |nodes|
        invariant Shaped(nodes, labels) && entries == old(entries)
        invariant labels[node].height == bit + 1 && labels[node].prefix == Prefix(member, bit + 1)
        invariant Accounts(nodes, labels, bit + 1, all, entries, 0)
      {
        node := ChildTowards(node, member, bit, all);
        LowerNode(node, member, symbol, bit);
        bit := bit - 1;
      }
      Settle(all);
    }

    ghost method Settle(all: set<Entry>)
      requires Shaped(nodes, labels) && Accounts(nodes, labels, 0, all, entries, 0)
      modifies `entries
      ensures Valid() && entries == all
    {
      AllAccounted(nodes, labels, all, entries);
      entries := all;
    }

    method LowerRoot(member: u32, symbol: nat)
      requires Valid()
      modifies `nodes
      ensures |nodes| == old(|nodes|) && Shaped(nodes, labels)
      ensures labels[0].height == 32 && labels[0].prefix == Prefix(member, 32)
      ensures Accounts(nodes, labels, 32, entries + {(member, symbol)}, entries, 0)
    {
      PrefixTop(member);
      RootLowered(nodes, labels, entries, member, symbol);
      nodes := nodes[0 := nodes[0].(earliestSymbol := KeepEarliest(nodes[0].earliestSymbol, symbol))];
    }

    method LowerNode(node: nat, member: u32, symbol: nat, bit: nat)
      requires Shaped(nodes, labels) && 0 < node < |nodes|
      requires labels[node].height == bit && labels[node].prefix == Prefix(member, bit)
      requires Accounts(nodes, labels, bit + 1, entries + {(member, symbol)}, entries, node)
      modifies `nodes
      ensures |nodes| == old(|nodes|) && Shaped(nodes, labels)
      ensures Accounts(nodes, labels, bit, entries + {(member, symbol)}, entries, 0)
    {
      LoweredShaped(nodes, labels, node, symbol);
      NodeLowered(nodes, labels, entries, member, symbol, node, bit);
      nodes := nodes[node := nodes[node].(earliestSymbol := KeepEarliest(nodes[node].earliestSymbol, symbol))];
    }

    /** The child of `node` towards `member`, pushed as a blank node when it is missing. */
    method ChildTowards(node: nat, member: u32, bit: nat, ghost all: set<Entry>) returns (next: nat)
      requires node < |nodes| && Shaped(nodes, labels)
      requires labels[node].height == bit + 1 && labels[node].prefix == Prefix(member, bit + 1)
      requires Accounts(nodes, labels, bit + 1, all, entries, 0)
      modifies this
      ensures entries == old(entries)
      ensures Shaped(nodes, labels) && 0 < next < |nodes|
      ensures labels[next].height == bit && labels[next].prefix == Prefix(member, bit)
      ensures Accounts(nodes, labels, bit + 1, all, entries, next)
    {
      PrefixStep(member, bit + 1);
      var branch := Bit(member, bit);
      var child := nodes[node].Child(branch);
      if child.Some? {
        next := child.value;
        assert ChildLabelled(nodes, labels, node, branch);
        AccountsBlank(nodes, labels, bit + 1, all, entries, next);
        return;
      }
      next := |nodes|;
      ghost var before, labelsBefore := nodes, labels;
      nodes := nodes[node := nodes[node].WithChild(branch, next)] + [EMPTY_NODE];
      labels := labels + [Label(bit, 2 * labels[node].prefix + branch, node, branch)];
      ChildAddedShaped(before, labelsBefore, node, bit, branch, nodes, labels);
      ChildAdded(before, labelsBefore, entries, all, node, bit, branch, nodes, labels);
    }

    /** The least symbol id among the inserted members strictly below `limit`. */
    method EarliestMemberBelow(limit: u32) returns (result: Option<nat>)
      requires Valid()
      ensures IsEarliest(result, SymbolsBelow(entries, limit))
    {
      hide Shaped, Accounts, SymbolsBefore, SymbolsUnder, SymbolsBelow, Prefix, Bit;
      RootShape(nodes, labels);
      if limit == 0 {
        NothingBelowZero(entries);
        return None;
      }
      result := None;
      var node := 0;
      var bit := 31;
      PrefixTop(limit);
      NothingBeforeTop(entries, limit);
      while bit >= 0
        invariant -1 <= bit <= 31 && 0 <= node < |nodes|
        invariant labels[node].height == bit + 1 && labels[node].prefix == Prefix(limit, bit + 1)
        invariant IsEarliest(result, SymbolsBefore(entries, limit, bit + 1))
      {
        var branch := Bit(limit, bit);
        BeforeStep(entries, limit, bit);
        PrefixStep(limit, bit + 1);
        ChildCovers(nodes, labels, entries, node, 0);
        ChildCovers(nodes, labels, entries, node, branch);
        var left := nodes[node].Child(0);
        if branch != 0 && left.Some? {
          result := KeepEarliestOf(result, nodes[left.value].earliestSymbol.value,
            SymbolsBefore(entries, limit, bit + 1), SymbolsUnder(entries, bit, 2 * Prefix(limit, bit + 1)));
        }
        var next := nodes[node].Child(branch);
        if next.None? {
          BelowAll(entries, limit, bit);
          return;
        }
        node := next.value;
        bit := bit - 1;
      }
      BelowAtLeaves(entries, limit);
    }
  }

  lemma RootShape(nodes: seq<NumericMemberIndexNode>, labels: seq<Label>)
    requires Shaped(nodes, labels)
    ensures |nodes| == |labels| > 0 && labels[0].height == 32 && labels[0].prefix == 0
  {
  }

  lemma NothingBelowZero(entries: set<Entry>)
    ensures SymbolsBelow(entries, 0) == {}
  {
  }

  lemma BelowAtLeaves(entries: set<Entry>, limit: nat)
    ensures SymbolsBefore(entries, limit, 0) == SymbolsBelow(entries, limit)
  {
  }

  /** One side of a node: a child with the minimum of its entries, or no entries there. */
  lemma ChildCovers(nodes: seq<NumericMemberIndexNode>, labels: seq<Label>, entries: set<Entry>, node: nat, b: nat)
    requires Shaped(nodes, labels) && Accounts(nodes, labels, 0, entries, entries, 0)
    requires node < |nodes| && b < 2 && labels[node].height > 0
    ensures var under := SymbolsUnder(entries, labels[node].height - 1, 2 * labels[node].prefix + b);
      match nodes[node].Child(b)
      case None => under == {}
      case Some(c) =>
        && 0 < c < |nodes|
        && labels[c].height == labels[node].height - 1 && labels[c].prefix == 2 * labels[node].prefix + b
        && nodes[c].earliestSymbol.Some? && IsEarliest(nodes[c].earliestSymbol, under)
  {
    assert ChildLabelled(nodes, labels, node, b);
    match nodes[node].Child(b)
    case None => assert Branches(nodes[node], labels[node], entries);
    case Some(c) => assert Caches(nodes[c], labels[c], entries);
  }

  /** The nodes after lowering one cached minimum. */
  function Lowered(nodes: seq<NumericMemberIndexNode>, node: nat, symbol: nat): seq<NumericMemberIndexNode>
    requires node < |nodes|
  {
    nodes[node := nodes[node].(earliestSymbol := KeepEarliest(nodes[node].earliestSymbol, symbol))]
  }

  lemma LoweredShaped(nodes: seq<NumericMemberIndexNode>, labels: seq<Label>, node: nat, symbol: nat)
    requires Shaped(nodes, labels) && node < |nodes|
    ensures Shaped(Lowered(nodes, node, symbol), labels)
  {
    var after := Lowered(nodes, node, symbol);
    assert forall k :: 0 <= k < |nodes| ==> after[k].child0 == nodes[k].child0 && after[k].child1 == nodes[k].child1;
    forall k | 0 < k < |nodes| ensures HangsOff(after, labels, k) {
      assert HangsOff(nodes, labels, k);
    }
    forall k, b | 0 <= k < |nodes| && 0 <= b < 2 ensures ChildLabelled(after, labels, k, b) {
      assert ChildLabelled(nodes, labels, k, b);
    }
  }

  lemma SameLabel(nodes: seq<NumericMemberIndexNode>, labels: seq<Label>, k: nat, l: nat)
    requires Shaped(nodes, labels) && k < |nodes| && l < |nodes|
    requires labels[k].height == labels[l].height && labels[k].prefix == labels[l].prefix
    ensures k == l
  {
  }

  /** A node off the member's path, or already branching towards it, branches for the new entry as well. */
  lemma BranchesExtend(node: NumericMemberIndexNode, at: Label, entries: set<Entry>, member: u32, symbol: nat)
    requires at.height > 0 && Branches(node, at, entries)
    requires Prefix(member, at.height) == at.prefix ==> node.Child(Bit(member, at.height - 1)).Some?
    ensures Branches(node, at, entries + {(member, symbol)})
  {
    PrefixStep(member, at.height);
    UnderExtends(entries, member, symbol, at.height - 1, 2 * at.prefix);
    UnderExtends(entries, member, symbol, at.height - 1, 2 * at.prefix + 1);
  }

  lemma CachesExtend(node: NumericMemberIndexNode, at: Label, entries: set<Entry>, member: u32, symbol: nat)
    requires Caches(node, at, entries)
    ensures Prefix(member, at.height) != at.prefix ==> Caches(node, at, entries + {(member, symbol)})
    ensures Prefix(member, at.height) == at.prefix ==>
      Caches(node.(earliestSymbol := KeepEarliest(node.earliestSymbol, symbol)), at, entries + {(member, symbol)})
  {
    UnderExtends(entries, member, symbol, at.height, at.prefix);
  }

  lemma NodeLoweredBranches(nodes: seq<NumericMemberIndexNode>, labels: seq<Label>, entries: set<Entry>,
                            member: u32, symbol: nat, node: nat, h: nat, k: nat)
    requires Shaped(nodes, labels) && 0 < node < |nodes| && k < |nodes|
    requires labels[node].height == h && labels[node].prefix == Prefix(member, h)
    requires Branches(nodes[k], labels[k], if labels[k].height > h + 1 then entries + {(member, symbol)} else entries)
    ensures Branches(nodes[k], labels[k], if labels[k].height > h then entries + {(member, symbol)} else entries)
  {
    if labels[k].height == h + 1 {
      assert HangsOff(nodes, labels, node);
      PrefixStep(member, h + 1);
      if labels[k].prefix == Prefix(member, h + 1) {
        SameLabel(nodes, labels, k, labels[node].parent);
      }
      BranchesExtend(nodes[k], labels[k], entries, member, symbol);
    }
  }

  lemma NodeLoweredCaches(nodes: seq<NumericMemberIndexNode>, labels: seq<Label>, entries: set<Entry>,
                          member: u32, symbol: nat, node: nat, h: nat, k: nat)
    requires Shaped(nodes, labels) && 0 < node < |nodes| && k < |nodes|
    requires labels[node].height == h && labels[node].prefix == Prefix(member, h)
    requires Caches(nodes[k], labels[k], if labels[k].height >= h + 1 then entries + {(member, symbol)} else entries)
    ensures Caches(Lowered(nodes, node, symbol)[k], labels[k],
              if labels[k].height >= h then entries + {(member, symbol)} else entries)
  {
    if labels[k].height == h {
      if labels[k].prefix == Prefix(member, h) {
        SameLabel(nodes, labels, k, node);
      }
      CachesExtend(nodes[k], labels[k], entries, member, symbol);
    }
  }

  /** Lowering the node at height `h` on the member's path moves the frontier down to `h`. */
  lemma NodeLowered(nodes: seq<NumericMemberIndexNode>, labels: seq<Label>, entries: set<Entry>,
                    member: u32, symbol: nat, node: nat, h: nat)
    requires Shaped(nodes, labels) && 0 < node < |nodes|
    requires labels[node].height == h && labels[node].prefix == Prefix(member, h)
    requires Accounts(nodes, labels, h + 1, entries + {(member, symbol)}, entries, node)
    ensures Accounts(Lowered(nodes, node, symbol), labels, h, entries + {(member, symbol)}, entries, 0)
  {
    var all := entries + {(member, symbol)};
    var after := Lowered(nodes, node, symbol);
    forall k | 0 <= k < |nodes|
      ensures Branches(after[k], labels[k], if labels[k].height > h then all else entries)
      ensures Caches(after[k], labels[k], if labels[k].height >= h then all else entries)
    {
      assert Branches(nodes[k], labels[k], if labels[k].height > h + 1 then all else entries);
      assert Caches(nodes[k], labels[k], if labels[k].height >= h + 1 then all else entries);
      NodeLoweredBranches(nodes, labels, entries, member, symbol, node, h, k);
      NodeLoweredCaches(nodes, labels, entries, member, symbol, node, h, k);
    }
  }

  lemma RootLowered(nodes: seq<NumericMemberIndexNode>, labels: seq<Label>, entries: set<Entry>,
                    member: u32, symbol: nat)
    requires Shaped(nodes, labels) && Accounts(nodes, labels, 0, entries, entries, 0)
    ensures Shaped(Lowered(nodes, 0, symbol), labels)
    ensures Accounts(Lowered(nodes, 0, symbol), labels, 32, entries + {(member, symbol)}, entries, 0)
  {
    LoweredShaped(nodes, labels, 0, symbol);
    PrefixTop(member);
    UnderExtends(entries, member, symbol, 32, 0);
    var all := entries + {(member, symbol)};
    var after := Lowered(nodes, 0, symbol);
    forall k | 0 <= k < |nodes|
      ensures Branches(after[k], labels[k], if labels[k].height > 32 then all else entries)
      ensures Caches(after[k], labels[k], if labels[k].height >= 32 then all else entries)
    {
      assert Branches(nodes[k], labels[k], entries) && Caches(nodes[k], labels[k], entries);
      assert k > 0 ==> HangsOff(nodes, labels, k);
    }
  }

  /** Hanging a blank node off a missing side keeps the trie's shape. */
  lemma ChildAddedShaped(nodes: seq<NumericMemberIndexNode>, labels: seq<Label>, node: nat, h: nat, b: nat,
                         after: seq<NumericMemberIndexNode>, labels': seq<Label>)
    requires Shaped(nodes, labels) && node < |nodes| && b < 2
    requires labels[node].height == h + 1 && nodes[node].Child(b).None?
    requires after == nodes[node := nodes[node].WithChild(b, |nodes|)] + [EMPTY_NODE]
    requires labels' == labels + [Label(h, 2 * labels[node].prefix + b, node, b)]
    ensures Shaped(after, labels')
  {
    var next, p := |nodes|, 2 * labels[node].prefix + b;
    forall k | 0 <= k < next ensures labels[k].height != h || labels[k].prefix != p {
      // A second node with this label would be the missing child.
      if k > 0 && labels[k].height == h && labels[k].prefix == p {
        assert HangsOff(nodes, labels, k);
        SameLabel(nodes, labels, labels[k].parent, node);
      }
    }
    forall k | 0 < k < |after| ensures HangsOff(after, labels', k) {
      if k < next {
        assert HangsOff(nodes, labels, k);
      }
    }
    forall k, c | 0 <= k < |after| && 0 <= c < 2 ensures ChildLabelled(after, labels', k, c) {
      if k < next {
        assert ChildLabelled(nodes, labels, k, c);
      }
    }
  }

  /** Hanging a blank node off a side without entries keeps what the trie accounts for. */
  lemma ChildAdded(nodes: seq<NumericMemberIndexNode>, labels: seq<Label>, entries: set<Entry>, all: set<Entry>,
                   node: nat, h: nat, b: nat, after: seq<NumericMemberIndexNode>, labels': seq<Label>)
    requires Shaped(nodes, labels) && node < |nodes| && b < 2
    requires labels[node].height == h + 1 && nodes[node].Child(b).None?
    requires Accounts(nodes, labels, h + 1, all, entries, 0)
    requires after == nodes[node := nodes[node].WithChild(b, |nodes|)] + [EMPTY_NODE]
    requires labels' == labels + [Label(h, 2 * labels[node].prefix + b, node, b)]
    ensures Accounts(after, labels', h + 1, all, entries, |nodes|)
  {
    var next := |nodes|;
    assert Branches(nodes[node], labels[node], entries);
    if h > 0 {
      NothingUnderChildren(entries, h, 2 * labels[node].prefix + b);
    }
    assert Branches(after[next], labels'[next], entries) && Caches(after[next], labels'[next], entries);
    forall k | 0 <= k < next
      ensures Branches(after[k], labels'[k], if labels'[k].height > h + 1 then all else entries)
      ensures Caches(after[k], labels'[k], if labels'[k].height >= h + 1 then all else entries)
    {
      assert Branches(nodes[k], labels[k], if labels[k].height > h + 1 then all else entries);
      assert Caches(nodes[k], labels[k], if labels[k].height >= h + 1 then all else entries);
    }
  }

  lemma AccountsBlank(nodes: seq<NumericMemberIndexNode>, labels: seq<Label>, h: int,
                      high: set<Entry>, low: set<Entry>, blank: nat)
    requires |labels| == |nodes| && Accounts(nodes, labels, h, high, low, 0)
    ensures Accounts(nodes, labels, h, high, low, blank)
  {
  }

  /** Once the frontier has reached the leaves, every node accounts for the new entry. */
  lemma AllAccounted(nodes: seq<NumericMemberIndexNode>, labels: seq<Label>, high: set<Entry>, low: set<Entry>)
    requires |labels| == |nodes| && Accounts(nodes, labels, 0, high, low, 0)
    ensures Accounts(nodes, labels, 0, high, high, 0)
  {
    forall k | 0 <= k < |nodes|
      ensures Branches(nodes[k], labels[k], high) && Caches(nodes[k], labels[k], high)
    {
      assert Branches(nodes[k], labels[k], if labels[k].height > 0 then high else low);
    }
  }

  lemma NothingUnderChildren(entries: set<Entry>, h: nat, p: nat)
    requires SymbolsUnder(entries, h, p) == {} && h > 0
    ensures SymbolsUnder(entries, h - 1, 2 * p) == {} && SymbolsUnder(entries, h - 1, 2 * p + 1) == {}
  {
    forall e | e in entries ensures !Under(e, h - 1, 2 * p) && !Under(e, h - 1, 2 * p + 1) {
      assert e.1 !in SymbolsUnder(entries, h, p);
      PrefixStep(e.0, h);
    }
  }

  lemma NothingBeforeTop(entries: set<Entry>, limit: u32)
    ensures SymbolsBefore(entries, limit, 32) == {}
  {
    PrefixTop(limit);
    forall e: Entry | e in entries ensures Prefix(e.0, 32) == 0 { PrefixTop(e.0); }
  }

  lemma BeforeStep(entries: set<Entry>, limit: nat, h: nat)
    ensures SymbolsBefore(entries, limit, h) == SymbolsBefore(entries, limit, h + 1)
      + (if Bit(limit, h) == 1 then SymbolsUnder(entries, h, 2 * Prefix(limit, h + 1)) else {})
  {
    forall e: Entry | e in entries
      ensures Prefix(e.0, h) < Prefix(limit, h) <==>
        || Prefix(e.0, h + 1) < Prefix(limit, h + 1)
        || (Bit(limit, h) == 1 && Under(e, h, 2 * Prefix(limit, h + 1)))
    {
      PrefixStep(e.0, h + 1);
      PrefixStep(limit, h + 1);
    }
  }

  /** With nothing in the subtree that holds `limit`, preceding that subtree is being below `limit`. */
  lemma BelowAll(entries: set<Entry>, limit: nat, h: nat)
    requires SymbolsUnder(entries, h, Prefix(limit, h)) == {}
    ensures SymbolsBefore(entries, limit, h) == SymbolsBelow(entries, limit)
  {
    forall e: Entry | e in entries
      ensures e.0 < limit <==> Prefix(e.0, h) < Prefix(limit, h)
    {
      if Under(e, h, Prefix(limit, h)) {
        assert e.1 in SymbolsUnder(entries, h, Prefix(limit, h));
      }
      if e.0 < limit { PrefixMonotone(e.0, limit, h); } else { PrefixMonotone(limit, e.0, h); }
    }
  }
}
