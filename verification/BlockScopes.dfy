/** How the two passes agree on blocks: which scope each block gets, and which scope binding visits it in. */
module BlockScopes {
  import opened Common
  import opened LexicalBinding
  import opened BindingPass
  import opened CollectingPass

  /** The number of blocks in a body, nested ones included. */
  function BlockCount(body: seq<BodyItem>): nat
    decreases body
  {
    if body == [] then 0 else BlockCount(body[..|body| - 1]) + ItemBlocks(body[|body| - 1])
  }

  function ItemBlocks(item: BodyItem): nat
    decreases item
  {
    if item.BlockItem? then 1 + BlockCount(item.body) else 0
  }

  /** The scope id the collecting pass gives to the block at position `i`, the body's scopes starting at `next`. */
  function BlockId(body: seq<BodyItem>, i: nat, next: nat): nat
    requires i <= |body|
  {
    next + BlockCount(body[..i])
  }

  lemma {:induction false} BlockIdMonotone(body: seq<BodyItem>, i: nat, j: nat, next: nat)
    requires i < j <= |body|
    ensures BlockId(body, i, next) + ItemBlocks(body[i]) <= BlockId(body, j, next)
  {
    assert body[..j][..j - 1] == body[..j - 1];
    if i < j - 1 {
      BlockIdMonotone(body, i, j - 1, next);
    }
  }

  /** Exactly the blocks of `body` are the block scopes below `parent`, numbered in order from `next`. */
  ghost predicate Mirrors(scopes: seq<Scope>, body: seq<BodyItem>, parent: nat, next: nat)
    decreases body
  {
    && (forall i :: 0 <= i < |body| && body[i].BlockItem? ==> MirrorsAt(scopes, body, i, parent, next))
    && (forall s :: 0 <= s < |scopes| && scopes[s].kind == BlockScope && scopes[s].parent == Some(parent) ==>
          exists i :: 0 <= i < |body| && body[i].BlockItem? && s == BlockId(body, i, next))
  }

  ghost predicate MirrorsAt(scopes: seq<Scope>, body: seq<BodyItem>, i: nat, parent: nat, next: nat)
    requires i < |body| && body[i].BlockItem?
    decreases body, 0
  {
    var id := BlockId(body, i, next);
    && id < |scopes| && IsBlockAt(scopes[id], parent, body[i].range)
    && Mirrors(scopes, body[i].body, id, id + 1)
  }

  /** No block scope of `scopes` from position `from` on lies below `parent` or below the scopes in `[lo, hi)`. */
  ghost predicate Outside(scopes: seq<Scope>, from: nat, parent: nat, lo: nat, hi: nat) {
    forall s :: from <= s < |scopes| && scopes[s].kind == BlockScope && scopes[s].parent.Some? ==>
      scopes[s].parent.value != parent && !(lo <= scopes[s].parent.value < hi)
  }

  /** Scopes added elsewhere do not disturb what a body's scopes mirror. */
  lemma {:induction false} MirrorsExtend(scopes: seq<Scope>, more: seq<Scope>, body: seq<BodyItem>, parent: nat, next: nat)
    requires Mirrors(scopes, body, parent, next) && scopes <= more
    requires Outside(more, |scopes|, parent, next, next + BlockCount(body))
    ensures Mirrors(more, body, parent, next)
    decreases body
  {
    forall i | 0 <= i < |body| && body[i].BlockItem? ensures MirrorsAt(more, body, i, parent, next) {
      assert MirrorsAt(scopes, body, i, parent, next);
      var id := BlockId(body, i, next);
      BlockIdMonotone(body, i, |body|, next);
      assert body[..|body|] == body;
      MirrorsExtend(scopes, more, body[i].body, id, id + 1);
    }
  }

  /** The scopes from `from` on are blocks below `parent` or below one another. */
  ghost predicate BlocksBelow(scopes: seq<Scope>, from: nat, parent: nat) {
    forall s :: from <= s < |scopes| ==>
      && scopes[s].kind == BlockScope && scopes[s].parent.Some?
      && (scopes[s].parent.value == parent || scopes[s].parent.value >= from)
  }

  /** `after` has exactly the blocks of `body`, as scopes in order, on top of `before`. */
  ghost predicate BlocksAdded(before: seq<Scope>, after: seq<Scope>, body: seq<BodyItem>, parent: nat) {
    && before <= after && |after| == |before| + BlockCount(body)
    && BlocksBelow(after, |before|, parent)
    && Mirrors(after, body, parent, |before|)
  }

  lemma PrefixBlockId(body: seq<BodyItem>, i: nat, next: nat)
    requires i < |body|
    ensures BlockId(body[..|body| - 1], i, next) == BlockId(body, i, next)
  {
    assert body[..|body| - 1][..i] == body[..i];
  }

  /** An item without blocks changes nothing in what the scopes mirror. */
  lemma SkipItem(before: seq<Scope>, after: seq<Scope>, body: seq<BodyItem>, parent: nat)
    requires body != [] && !body[|body| - 1].BlockItem?
    requires BlocksAdded(before, after, body[..|body| - 1], parent)
    ensures BlocksAdded(before, after, body, parent)
  {
    var init, next := body[..|body| - 1], |before|;
    forall i | 0 <= i < |body| && body[i].BlockItem? ensures MirrorsAt(after, body, i, parent, next) {
      assert MirrorsAt(after, init, i, parent, next);
      PrefixBlockId(body, i, next);
    }
    forall s | 0 <= s < |after| && after[s].kind == BlockScope && after[s].parent == Some(parent)
      ensures exists i :: 0 <= i < |body| && body[i].BlockItem? && s == BlockId(body, i, next)
    {
      var i :| 0 <= i < |init| && init[i].BlockItem? && s == BlockId(init, i, next);
      PrefixBlockId(body, i, next);
      assert body[i].BlockItem?;
    }
  }

  /** A block item adds its own scope and, on top of that, its inner blocks. */
  lemma AppendBlock(before: seq<Scope>, mid: seq<Scope>, after: seq<Scope>, body: seq<BodyItem>, parent: nat)
    requires body != [] && body[|body| - 1].BlockItem? && parent < |before|
    requires BlocksAdded(before, mid, body[..|body| - 1], parent)
    requires var last := body[|body| - 1];
      && mid < after && IsBlockAt(after[|mid|], parent, last.range)
      && BlocksAdded(after[..|mid| + 1], after, last.body, |mid|)
    ensures BlocksAdded(before, after, body, parent)
  {
    var init, last, next, id := body[..|body| - 1], body[|body| - 1], |before|, |mid|;
    assert BlockId(body, |init|, next) == id;
    forall i | 0 <= i < |body| && body[i].BlockItem? ensures MirrorsAt(after, body, i, parent, next) {
      if i < |init| {
        assert MirrorsAt(mid, init, i, parent, next);
        PrefixBlockId(body, i, next);
        BlockIdMonotone(body, i, |init|, next);
        var own := BlockId(body, i, next);
        MirrorsExtend(mid, after, body[i].body, own, own + 1);
      }
    }
    forall s | 0 <= s < |after| && after[s].kind == BlockScope && after[s].parent == Some(parent)
      ensures exists i :: 0 <= i < |body| && body[i].BlockItem? && s == BlockId(body, i, next)
    {
      if s < id {
        assert mid[s] == after[s];
        var i :| 0 <= i < |init| && init[i].BlockItem? && s == BlockId(init, i, next);
        PrefixBlockId(body, i, next);
        assert body[i].BlockItem?;
      } else {
        assert s == id && body[|init|].BlockItem?;
      }
    }
  }

  /** What the collecting pass adds for a body: exactly its blocks as scopes, in order. */
  lemma {:induction false} CollectBodyMirrors(b: Binding, body: seq<BodyItem>, functionScope: nat, lexicalScope: nat)
    requires Sound(b) && functionScope < |b.scopes| && lexicalScope < |b.scopes| && NamedBody(body)
    requires Outside(b.scopes, 0, lexicalScope, 0, 0)
    ensures BlocksAdded(b.scopes, CollectBody(b, body, functionScope, lexicalScope).scopes, body, lexicalScope)
    decreases body
  {
    if body != [] {
      var init, last := body[..|body| - 1], body[|body| - 1];
      var mid := CollectBody(b, init, functionScope, lexicalScope);
      CollectBodyMirrors(b, init, functionScope, lexicalScope);
      CollectBodyGrows(b, init, functionScope, lexicalScope);
      assert NamedItem(body[|body| - 1]);
      CollectItemGrows(mid, last, functionScope, lexicalScope);
      if last.BlockItem? {
        var entered := AddBlockScope(mid, lexicalScope, last.range);
        PushScopeGrows(mid, Scope(|mid.scopes|, BlockScope, Some(lexicalScope), None, Some(last.range)));
        CollectBodyMirrors(entered, last.body, functionScope, |mid.scopes|);
        var after := CollectBody(b, body, functionScope, lexicalScope);
        assert after.scopes[..|mid.scopes| + 1] == entered.scopes;
        AppendBlock(b.scopes, mid.scopes, after.scopes, body, lexicalScope);
      } else {
        SkipItem(b.scopes, mid.scopes, body, lexicalScope);
      }
    } else {
      assert BlockCount(body) == 0;
    }
  }

  // ---- the whole module -------------------------------------------------------------------------

  /** Every collected function's scope mirrors the blocks of its body. */
  ghost predicate ContextsMirror(scopes: seq<Scope>, contexts: seq<FunctionContext>) {
    forall c :: c in contexts ==>
      && Mirrors(scopes, c.declaration.body, c.scope, c.scope + 1)
      && c.scope + 1 + BlockCount(c.declaration.body) <= |scopes|
  }

  /** Blocks added below later scopes leave earlier functions' scopes alone. */
  lemma ContextsExtend(before: seq<Scope>, after: seq<Scope>, contexts: seq<FunctionContext>)
    requires ContextsMirror(before, contexts) && before <= after
    requires forall s :: |before| <= s < |after| && after[s].kind == BlockScope && after[s].parent.Some? ==>
      after[s].parent.value >= |before|
    ensures ContextsMirror(after, contexts)
  {
    forall c | c in contexts
      ensures Mirrors(after, c.declaration.body, c.scope, c.scope + 1)
    {
      MirrorsExtend(before, after, c.declaration.body, c.scope, c.scope + 1);
    }
  }

  /** Collecting one more function mirrors its body and leaves earlier functions' scopes alone. */
  lemma CollectFunctionMirrors(b: Binding, f: FunctionDeclaration, contexts: seq<FunctionContext>)
    requires Sound(b) && NamedFunction(f) && ContextsMirror(b.scopes, contexts)
    ensures ContextsMirror(CollectFunction(b, f).scopes, contexts + [FunctionContext(f, |b.scopes|)])
  {
    hide Mirrors, ContextsMirror, OrdersRecorded, CollectBody, CollectFunctionHeader;
    CollectFunctionHeaderGrows(b, f);
    var header := CollectFunctionHeader(b, f);
    CollectBodyMirrors(header, f.body, |b.scopes|, |b.scopes|);
    ContextsExtend(b.scopes, CollectFunction(b, f).scopes, contexts);
    OneMoreContext(CollectFunction(b, f).scopes, contexts, FunctionContext(f, |b.scopes|));
  }

  lemma OneMoreContext(scopes: seq<Scope>, contexts: seq<FunctionContext>, c: FunctionContext)
    requires ContextsMirror(scopes, contexts)
    requires Mirrors(scopes, c.declaration.body, c.scope, c.scope + 1)
    requires c.scope + 1 + BlockCount(c.declaration.body) <= |scopes|
    ensures ContextsMirror(scopes, contexts + [c])
  {
    hide Mirrors, BlockCount;
  }

  /** Collecting a module mirrors the body of every function in that function's own scope. */
  lemma {:induction false} CollectModuleMirrors(b: Binding, items: seq<ModuleItem>)
    requires Sound(b) && NamedModule(items)
    ensures ContextsMirror(CollectModule(b, items).scopes, FunctionContexts(b, items))
  {
    hide Mirrors, BlockCount, CollectFunction, OrdersRecorded, WellFormed;
    if items != [] {
      var init, last := items[..|items| - 1], items[|items| - 1];
      assert forall i :: 0 <= i < |init| ==> init[i] == items[i];
      CollectModuleMirrors(b, init);
      CollectModuleGrows(b, init);
      assert [last][0] == items[|items| - 1];
      CollectModuleItemGrows(CollectModule(b, init), last);
      if last.FunctionItem? {
        CollectFunctionMirrors(CollectModule(b, init), last.declaredFunction, FunctionContexts(b, init));
      }
    }
  }

  // ---- the binding pass -------------------------------------------------------------------------

  /** The first block of a body with this range. */
  function FirstBlockItem(body: seq<BodyItem>, range: SourceRange): (r: Option<nat>)
    ensures r.Some? ==> r.value < |body| && body[r.value].BlockItem? && body[r.value].range == range
    ensures forall i :: 0 <= i < |body| && body[i].BlockItem? && body[i].range == range ==> r.Some? && r.value <= i
  {
    if body == [] then None
    else
      var earlier := FirstBlockItem(body[..|body| - 1], range);
      var last := body[|body| - 1];
      if earlier.Some? then earlier
      else if last.BlockItem? && last.range == range then Some(|body| - 1)
      else None
  }

  /** The scope search finds the scope of the first block with the range sought. */
  lemma FirstScopeIsFirstItem(scopes: seq<Scope>, body: seq<BodyItem>, parent: nat, next: nat, range: SourceRange)
    requires Mirrors(scopes, body, parent, next)
    ensures FirstBlockScope(scopes, parent, range)
      == (match FirstBlockItem(body, range) case None => None case Some(i) => Some(BlockId(body, i, next)))
  {
    hide BlockId, BlockCount, FirstBlockScope, FirstBlockItem;
    var found, item := FirstBlockScope(scopes, parent, range), FirstBlockItem(body, range);
    if found.Some? {
      var i :| 0 <= i < |body| && body[i].BlockItem? && found.value == BlockId(body, i, next);
      assert MirrorsAt(scopes, body, i, parent, next);
      if item.value < i {
        assert MirrorsAt(scopes, body, item.value, parent, next);
        BlockIdMonotone(body, item.value, i, next);
      }
    }
  }

  /** Every block of `body`, and in turn of its blocks, has a like-ranged block where the search will look. */
  ghost predicate Resolves(target: seq<BodyItem>, body: seq<BodyItem>)
    decreases body
  {
    forall i :: 0 <= i < |body| && body[i].BlockItem? ==>
      var t := FirstBlockItem(target, body[i].range);
      t.Some? && Resolves(target[t.value].body, body[i].body)
  }

  /** Binding a body throws no missing-scope exception exactly when all its blocks resolve. */
  lemma {:induction false} BindBodySucceedsIff(b: Binding, specials: set<string>, body: seq<BodyItem>, scope: nat,
                                               target: seq<BodyItem>, next: nat)
    requires ScopesNest(b.scopes) && scope < |b.scopes| && Mirrors(b.scopes, target, scope, next)
    ensures BindBody(b, specials, body, scope).Some? <==> Resolves(target, body)
    decreases body
  {
    hide BindDeclarators, BindOperands, AddReference, FirstBlockScope, FirstBlockItem, BlockId;
    if body != [] {
      var init, last := body[..|body| - 1], body[|body| - 1];
      BindBodySucceedsIff(b, specials, init, scope, target, next);
      assert forall i :: 0 <= i < |init| ==> init[i] == body[i];
      var before := BindBody(b, specials, init, scope);
      if before.Some? && last.BlockItem? {
        FirstScopeIsFirstItem(b.scopes, target, scope, next, last.range);
        var t := FirstBlockItem(target, last.range);
        if t.Some? {
          assert MirrorsAt(b.scopes, target, t.value, scope, next);
          var id := BlockId(target, t.value, next);
          BindBodySucceedsIff(before.value, specials, last.body, id, target[t.value].body, id + 1);
        }
      }
    }
  }

  /** Sibling blocks have distinct source ranges, at every depth. */
  ghost predicate DistinctSiblings(body: seq<BodyItem>)
    decreases body
  {
    && (forall i, j :: 0 <= i < j < |body| && body[i].BlockItem? && body[j].BlockItem? ==> body[i].range != body[j].range)
    && (forall i :: 0 <= i < |body| && body[i].BlockItem? ==> DistinctSiblings(body[i].body))
  }

  /** Binding visits every block of `body` in the scope that was made for that block. */
  ghost predicate VisitsOwnScopes(scopes: seq<Scope>, body: seq<BodyItem>, parent: nat, next: nat)
    decreases body
  {
    forall i :: 0 <= i < |body| && body[i].BlockItem? ==>
      var id := BlockId(body, i, next);
      FirstBlockScope(scopes, parent, body[i].range) == Some(id) && VisitsOwnScopes(scopes, body[i].body, id, id + 1)
  }

  /** A block is found in its own scope exactly when it is the first of its body with its range. */
  lemma FoundInOwnScope(scopes: seq<Scope>, body: seq<BodyItem>, parent: nat, next: nat, i: nat)
    requires Mirrors(scopes, body, parent, next) && i < |body| && body[i].BlockItem?
    ensures FirstBlockScope(scopes, parent, body[i].range) == Some(BlockId(body, i, next))
      <==> FirstBlockItem(body, body[i].range) == Some(i)
  {
    hide Mirrors, FirstBlockScope;
    FirstScopeIsFirstItem(scopes, body, parent, next, body[i].range);
    var t := FirstBlockItem(body, body[i].range).value;
    if t < i {
      BlockIdMonotone(body, t, i, next);
    }
  }

  /** The two passes agree on every block exactly when sibling blocks have distinct ranges. */
  lemma {:induction false} PassesAgreeIff(scopes: seq<Scope>, body: seq<BodyItem>, parent: nat, next: nat)
    requires Mirrors(scopes, body, parent, next)
    ensures VisitsOwnScopes(scopes, body, parent, next) <==> DistinctSiblings(body)
    decreases body
  {
    hide FirstBlockScope, FirstBlockItem;
    forall i | 0 <= i < |body| && body[i].BlockItem?
      ensures VisitsOwnScopes(scopes, body[i].body, BlockId(body, i, next), BlockId(body, i, next) + 1)
        <==> DistinctSiblings(body[i].body)
      ensures FirstBlockScope(scopes, parent, body[i].range) == Some(BlockId(body, i, next))
        <==> FirstBlockItem(body, body[i].range) == Some(i)
    {
      assert MirrorsAt(scopes, body, i, parent, next);
      PassesAgreeIff(scopes, body[i].body, BlockId(body, i, next), BlockId(body, i, next) + 1);
      FoundInOwnScope(scopes, body, parent, next, i);
    }
    FirstsAreDistinct(body);
  }

  lemma FirstsAreDistinct(body: seq<BodyItem>)
    ensures (forall i :: 0 <= i < |body| && body[i].BlockItem? ==> FirstBlockItem(body, body[i].range) == Some(i))
      <==> (forall i, j :: 0 <= i < j < |body| && body[i].BlockItem? && body[j].BlockItem? ==> body[i].range != body[j].range)
  {
  }

  /** Distinct sibling ranges rule out the missing-scope exception. */
  lemma {:induction false} DistinctResolves(body: seq<BodyItem>)
    requires DistinctSiblings(body)
    ensures Resolves(body, body)
    decreases body
  {
    FirstsAreDistinct(body);
    forall i | 0 <= i < |body| && body[i].BlockItem? ensures Resolves(body[i].body, body[i].body) {
      DistinctResolves(body[i].body);
    }
  }
}
