/** Validation of a whole tree of nested regions. */
module Validation {
  import opened Prelude
  import opened Ir
  import opened RegionAnalysis
  import opened RegionTheorems

  /** The context in which a region nested in `node` is analyzed. */
  function ChildCtx(node: Node, child: Region, ctx: RegionCtx): RegionCtx {
    ctx.(inputSchema := child.inputSchema,
         outputSchema := child.outputSchema,
         inLoop := ctx.inLoop || node.While? || node.DoWhile? || node.Repeat?,
         inForeach := ctx.inForeach || node.Foreach?,
         inSaga := ctx.inSaga || node.Saga?)
  }

  function RootCtx(inputSchema: SchemaRef, outputSchema: SchemaRef): RegionCtx {
    RegionCtx(inputSchema, outputSchema, false, false, false, false)
  }

  /** `child` is nested directly in node `k` of `region`. */
  ghost predicate Nested(region: Region, k: Key, child: Region) {
    k in region.nodes && child in ChildRegions(region.nodes[k])
  }

  lemma NestedSmaller(region: Region, k: Key, child: Region)
    requires Nested(region, k, child)
    ensures child < region
  {
    assert region.nodes[k] < region;
  }

  /** Every region of the tree is accepted in the context of its place. */
  ghost predicate TreeAccepted(region: Region, ctx: RegionCtx)
    decreases region
  {
    && Accepted(region, ctx)
    && forall k, child :: Nested(region, k, child) ==>
         (NestedSmaller(region, k, child); TreeAccepted(child, ChildCtx(region.nodes[k], child, ctx)))
  }

  ghost predicate ChildAccepted(node: Node, child: Region, ctx: RegionCtx) {
    TreeAccepted(child, ChildCtx(node, child, ctx))
  }

  /** A node's nested regions are all accepted. */
  ghost predicate ChildrenAccepted(node: Node, ctx: RegionCtx) {
    forall child :: child in ChildRegions(node) ==> ChildAccepted(node, child, ctx)
  }

  lemma TreeByNode(region: Region, ctx: RegionCtx)
    ensures TreeAccepted(region, ctx) <==>
            Accepted(region, ctx) && forall k :: k in region.nodes ==> ChildrenAccepted(region.nodes[k], ctx)
  {
    if TreeAccepted(region, ctx) {
      forall k, child | k in region.nodes && child in ChildRegions(region.nodes[k])
        ensures ChildAccepted(region.nodes[k], child, ctx)
      {
        assert Nested(region, k, child);
      }
    } else if Accepted(region, ctx) {
      var k, child :| Nested(region, k, child) && !ChildAccepted(region.nodes[k], child, ctx);
    }
  }

  method AnalyzeTree(region: Region, ctx: RegionCtx) returns (r: Result<(), AnalysisError>)
    ensures r.Ok? <==> TreeAccepted(region, ctx)
    decreases region, 1
  {
    r := AnalyzeRegion(region, ctx);
    if r.Ok? {
      r := AnalyzeNodes(region, ctx);
    }
    TreeByNode(region, ctx);
  }

  method AnalyzeNodes(region: Region, ctx: RegionCtx) returns (r: Result<(), AnalysisError>)
    ensures r.Ok? <==> forall k :: k in region.nodes ==> ChildrenAccepted(region.nodes[k], ctx)
    decreases region, 0
  {
    var rest := region.nodes.Keys;
    while rest != {}
      invariant rest <= region.nodes.Keys
      invariant forall k :: k in region.nodes.Keys - rest ==> ChildrenAccepted(region.nodes[k], ctx)
      decreases rest
    {
      var key :| key in rest;
      assert region.nodes[key] < region;
      r := AnalyzeChildren(region.nodes[key], ctx);
      if r.Err? {
        return;
      }
      rest := rest - {key};
    }
    r := Ok(());
  }

  method AnalyzeChildren(node: Node, ctx: RegionCtx) returns (r: Result<(), AnalysisError>)
    ensures r.Ok? <==> ChildrenAccepted(node, ctx)
    decreases node, 1
  {
    r := AnalyzeEach(node, ChildRegions(node), ctx);
  }

  ghost predicate HoldsUpTo<T>(holds: T -> bool, xs: seq<T>, i: nat) {
    i <= |xs| && forall j :: 0 <= j < i ==> holds(xs[j])
  }

  method AnalyzeEach(node: Node, children: seq<Region>, ctx: RegionCtx) returns (r: Result<(), AnalysisError>)
    requires forall child :: child in children ==> child < node
    ensures r.Ok? <==> forall child :: child in children ==> ChildAccepted(node, child, ctx)
    decreases node, 0
  {
    ghost var accepted := (child: Region) => ChildAccepted(node, child, ctx);
    for i := 0 to |children|
      invariant HoldsUpTo(accepted, children, i)
    {
      assert children[i] in children;
      r := AnalyzeChild(node, children, i, ctx, accepted);
      if r.Err? {
        return;
      }
    }
    r := Ok(());
  }

  method AnalyzeChild(node: Node, children: seq<Region>, i: nat, ctx: RegionCtx, ghost accepted: Region -> bool)
    returns (r: Result<(), AnalysisError>)
    requires i < |children| && HoldsUpTo(accepted, children, i) && forall child :: child in children ==> child < node
    requires accepted(children[i]) == ChildAccepted(node, children[i], ctx)
    ensures r.Ok? <==> accepted(children[i])
    ensures r.Ok? ==> HoldsUpTo(accepted, children, i + 1)
    decreases children[i], 2
  {
    r := AnalyzeTree(children[i], ChildCtx(node, children[i], ctx));
  }

  /** A published workflow: the parts of a definition that validation looks at. */
  datatype Definition = Definition(id: string, version: nat, inputSchema: SchemaRef, outputSchema: SchemaRef,
                                   signals: map<string, SchemaRef>, runTimeoutMs: Option<nat>, root: Region)

  const MAX_NORMALIZED_BYTES := 256 * 1024

  /**
   * A definition gets a digest if it has canonical text, of at most 256 KiB. `text` gives the length
   * of that text, or nothing for a definition with a literal that has none.
   */
  predicate Digestible(text: Definition -> Option<nat>, d: Definition) {
    text(d).Some? && text(d).value <= MAX_NORMALIZED_BYTES
  }

  lemma DigestibleIff(text: Definition -> Option<nat>, d: Definition)
    ensures Digestible(text, d) <==> exists n: nat :: text(d) == Some(n) && n <= 256 * 1024
  {
  }

  ghost predicate DefinitionValid(d: Definition) {
    TreeAccepted(d.root, RootCtx(d.inputSchema, d.outputSchema))
  }

  method ValidateDefinition(d: Definition) returns (r: Result<(), AnalysisError>)
    ensures r.Ok? <==> DefinitionValid(d)
  {
    r := AnalyzeTree(d.root, RootCtx(d.inputSchema, d.outputSchema));
  }

  // ----- positions -----

  /** One level down: the `index`th region nested in node `key`. */
  datatype Descent = Descent(key: Key, index: nat)

  function Sub(region: Region, position: seq<Descent>): Option<Region>
    decreases position
  {
    if position == [] then
      Some(region)
    else if position[0].key in region.nodes && position[0].index < |ChildRegions(region.nodes[position[0].key])| then
      Sub(ChildRegions(region.nodes[position[0].key])[position[0].index], position[1..])
    else
      None
  }

  // ----- exits -----

  /** `holds` is true of every node of the tree, under its key. */
  ghost predicate Everywhere(region: Region, holds: (Key, Node) -> bool)
    decreases region
  {
    && (forall k :: k in region.nodes ==> holds(k, region.nodes[k]))
    && forall k, child :: Nested(region, k, child) ==> (NestedSmaller(region, k, child); Everywhere(child, holds))
  }

  /** The next port no longer points at the node itself; terminal nodes have none. */
  predicate NextSet(k: Key, node: Node) {
    !Terminal(node) ==> node.next != k
  }

  /** A wait that can time out has somewhere to go then. */
  predicate TimeoutSet(k: Key, node: Node) {
    node.WaitSignal? && node.timeoutMs.Some? ==> node.onTimeout.Some?
  }

  /** No exit of the node is unconnected. */
  predicate ExitsSet(k: Key, node: Node) {
    NextSet(k, node) && TimeoutSet(k, node)
  }

  /** A tree that validates has every next port connected, at every level. */
  lemma {:induction false} AcceptedNextsSet(region: Region, ctx: RegionCtx)
    requires TreeAccepted(region, ctx)
    ensures Everywhere(region, NextSet)
    decreases region
  {
    forall k | k in region.nodes
      ensures NextSet(k, region.nodes[k])
    {
      if !Terminal(region.nodes[k]) {
        AcceptedHasNoSelfLoop(region, ctx, k);
      }
    }
    forall k, child | Nested(region, k, child)
      ensures Everywhere(child, NextSet)
    {
      NestedSmaller(region, k, child);
      AcceptedNextsSet(child, ChildCtx(region.nodes[k], child, ctx));
    }
  }

  lemma {:induction false} ExitsAreBoth(region: Region)
    ensures Everywhere(region, ExitsSet) <==> Everywhere(region, NextSet) && Everywhere(region, TimeoutSet)
    decreases region
  {
    forall k | k in region.nodes
      ensures ExitsSet(k, region.nodes[k]) <==> NextSet(k, region.nodes[k]) && TimeoutSet(k, region.nodes[k])
    {
    }
    forall k, child | Nested(region, k, child)
      ensures Everywhere(child, ExitsSet) <==> Everywhere(child, NextSet) && Everywhere(child, TimeoutSet)
    {
      NestedSmaller(region, k, child);
      ExitsAreBoth(child);
    }
  }

  /** A tree that validates has no unconnected exit if and only if every timed wait in it has its timeout target. */
  lemma AcceptedExitsSetIff(region: Region, ctx: RegionCtx)
    requires TreeAccepted(region, ctx)
    ensures Everywhere(region, NextSet)
    ensures Everywhere(region, ExitsSet) <==> Everywhere(region, TimeoutSet)
  {
    AcceptedNextsSet(region, ctx);
    ExitsAreBoth(region);
  }
}
