/** Scoping over a whole tree: what a node may read is decided by the nodes that enclose it. */
module TreeScopes {
  import opened Prelude
  import opened Bindings
  import opened Ir
  import opened RegionAnalysis
  import opened RegionReads
  import opened Validation

  /** The nodes that enclose the region at `position`, outermost first. */
  function Enclosing(region: Region, position: seq<Descent>): seq<Node>
    requires Sub(region, position).Some?
    decreases |position|
  {
    if position == [] then []
    else
      var node := region.nodes[position[0].key];
      [node] + Enclosing(ChildRegions(node)[position[0].index], position[1..])
  }

  /** The context in which validation analyzes the region at `position`. */
  function CtxAt(region: Region, position: seq<Descent>, ctx: RegionCtx): RegionCtx
    requires Sub(region, position).Some?
    decreases |position|
  {
    if position == [] then ctx
    else
      var node := region.nodes[position[0].key];
      var child := ChildRegions(node)[position[0].index];
      CtxAt(child, position[1..], ChildCtx(node, child, ctx))
  }

  ghost predicate InLoop(nodes: seq<Node>) {
    exists i :: 0 <= i < |nodes| && (nodes[i].While? || nodes[i].DoWhile? || nodes[i].Repeat?)
  }

  ghost predicate InForeach(nodes: seq<Node>) {
    exists i :: 0 <= i < |nodes| && nodes[i].Foreach?
  }

  ghost predicate InSaga(nodes: seq<Node>) {
    exists i :: 0 <= i < |nodes| && nodes[i].Saga?
  }

  lemma ConsEncloses(node: Node, nodes: seq<Node>)
    ensures InLoop([node] + nodes) <==> node.While? || node.DoWhile? || node.Repeat? || InLoop(nodes)
    ensures InForeach([node] + nodes) <==> node.Foreach? || InForeach(nodes)
    ensures InSaga([node] + nodes) <==> node.Saga? || InSaga(nodes)
  {
    var all := [node] + nodes;
    assert all[0] == node && forall i :: 0 <= i < |nodes| ==> all[i + 1] == nodes[i];
  }

  /** The flags of a context say exactly what encloses the region. */
  lemma {:induction false} ContextIsEnclosure(region: Region, position: seq<Descent>, ctx: RegionCtx)
    requires Sub(region, position).Some?
    ensures var at := CtxAt(region, position, ctx); var nodes := Enclosing(region, position);
            && (at.inLoop <==> ctx.inLoop || InLoop(nodes))
            && (at.inForeach <==> ctx.inForeach || InForeach(nodes))
            && (at.inSaga <==> ctx.inSaga || InSaga(nodes))
            && at.inCompensation == ctx.inCompensation
    decreases |position|
  {
    if position != [] {
      var node := region.nodes[position[0].key];
      var child := ChildRegions(node)[position[0].index];
      ContextIsEnclosure(child, position[1..], ChildCtx(node, child, ctx));
      ConsEncloses(node, Enclosing(child, position[1..]));
    }
  }

  lemma {:induction false} AcceptedAt(region: Region, position: seq<Descent>, ctx: RegionCtx)
    requires TreeAccepted(region, ctx) && Sub(region, position).Some?
    ensures Accepted(Sub(region, position).value, CtxAt(region, position, ctx))
    decreases |position|
  {
    if position != [] {
      var key := position[0].key;
      var child := ChildRegions(region.nodes[key])[position[0].index];
      assert Nested(region, key, child);
      AcceptedAt(child, position[1..], ChildCtx(region.nodes[key], child, ctx));
    }
  }

  lemma ChildSub(region: Region, k: Key, i: nat, position: seq<Descent>)
    requires k in region.nodes && i < |ChildRegions(region.nodes[k])| && Sub(ChildRegions(region.nodes[k])[i], position).Some?
    ensures var child := ChildRegions(region.nodes[k])[i]; var below := [Descent(k, i)] + position;
            && Sub(region, below) == Sub(child, position)
            && forall ctx :: CtxAt(region, below, ctx) == CtxAt(child, position, ChildCtx(region.nodes[k], child, ctx))
  {
    assert ([Descent(k, i)] + position)[1..] == position;
  }

  /** Every region of the tree is accepted in the context of its position. */
  ghost predicate AcceptedEverywhere(region: Region, ctx: RegionCtx) {
    forall position :: Sub(region, position).Some? ==> Accepted(Sub(region, position).value, CtxAt(region, position, ctx))
  }

  lemma {:induction false} EverywhereIsTree(region: Region, ctx: RegionCtx)
    requires AcceptedEverywhere(region, ctx)
    ensures TreeAccepted(region, ctx)
    decreases region
  {
    assert Sub(region, []) == Some(region) && CtxAt(region, [], ctx) == ctx;
    forall k, child | Nested(region, k, child)
      ensures TreeAccepted(child, ChildCtx(region.nodes[k], child, ctx))
    {
      NestedSmaller(region, k, child);
      var i :| 0 <= i < |ChildRegions(region.nodes[k])| && ChildRegions(region.nodes[k])[i] == child;
      forall position | Sub(child, position).Some?
        ensures Accepted(Sub(child, position).value, CtxAt(child, position, ChildCtx(region.nodes[k], child, ctx)))
      {
        ChildSub(region, k, i, position);
        assert Sub(region, [Descent(k, i)] + position).Some?;
      }
      EverywhereIsTree(child, ChildCtx(region.nodes[k], child, ctx));
    }
  }

  /** A tree validates exactly if each of its regions is accepted where it stands. */
  lemma TreeIffEverywhere(region: Region, ctx: RegionCtx)
    ensures TreeAccepted(region, ctx) <==> AcceptedEverywhere(region, ctx)
  {
    if TreeAccepted(region, ctx) {
      forall position | Sub(region, position).Some?
        ensures Accepted(Sub(region, position).value, CtxAt(region, position, ctx))
      {
        AcceptedAt(region, position, ctx);
      }
    } else if AcceptedEverywhere(region, ctx) {
      EverywhereIsTree(region, ctx);
    }
  }

  lemma ScopeEncloses(node: Node, r: Reference, ctx: RegionCtx, nodes: seq<Node>)
    requires InScope(node, r, ctx) && !ctx.inCompensation
    requires (ctx.inLoop ==> InLoop(nodes)) && (ctx.inForeach ==> InForeach(nodes))
    ensures r in {LoopState, LoopIndex} ==> InLoop(nodes + [node])
    ensures r in {ItemValue, ItemIndex} ==> InForeach(nodes + [node])
    ensures r in {ForwardInput, ForwardOutput} ==> node.Activity? && node.compensation.Some?
  {
    var all := nodes + [node];
    assert all[|nodes|] == node && forall i :: 0 <= i < |nodes| ==> all[i] == nodes[i];
  }

  lemma InScopeAt(d: Definition, position: seq<Descent>, k: Key, r: Reference)
    requires DefinitionValid(d) && Sub(d.root, position).Some? && k in Sub(d.root, position).value.nodes
    requires NodeReads(Sub(d.root, position).value.nodes[k], r)
    ensures InScope(Sub(d.root, position).value.nodes[k], r, CtxAt(d.root, position, RootCtx(d.inputSchema, d.outputSchema)))
  {
    var ctx := RootCtx(d.inputSchema, d.outputSchema);
    AcceptedAt(d.root, position, ctx);
    AcceptedReads(Sub(d.root, position).value, CtxAt(d.root, position, ctx), k, r);
  }

  /**
   * In a definition that validates, loop values are read only by loops and inside them, items only by
   * iterations and inside them, and forward values only by activities with a compensation.
   */
  lemma ReadsAreEnclosed(d: Definition, position: seq<Descent>, k: Key, r: Reference)
    requires DefinitionValid(d) && Sub(d.root, position).Some? && k in Sub(d.root, position).value.nodes
    requires NodeReads(Sub(d.root, position).value.nodes[k], r)
    ensures var node := Sub(d.root, position).value.nodes[k]; var nodes := Enclosing(d.root, position) + [node];
            && (r in {LoopState, LoopIndex} ==> InLoop(nodes))
            && (r in {ItemValue, ItemIndex} ==> InForeach(nodes))
            && (r in {ForwardInput, ForwardOutput} ==> node.Activity? && node.compensation.Some?)
  {
    var ctx := RootCtx(d.inputSchema, d.outputSchema);
    InScopeAt(d, position, k, r);
    ContextIsEnclosure(d.root, position, ctx);
    ScopeEncloses(Sub(d.root, position).value.nodes[k], r, CtxAt(d.root, position, ctx), Enclosing(d.root, position));
  }
}
