/** A timed wait that is built and published although its timeout port leads nowhere. */
module OpenExits {
  import opened Prelude
  import opened Bindings
  import opened Ir
  import opened Codecs
  import opened RegionAnalysis
  import opened Validation
  import opened Chain
  import opened Builder

  /** The wait goes on to `done` when signalled, and has a timeout without a target. */
  function OpenWait(wait: Key, signal: string, correlation: string, timeoutMs: nat, schema: SchemaRef): Region {
    Region([Root], schema, schema, wait, map[
      wait := WaitSignal(signal, Literal(correlation), Some(timeoutMs), "done", None),
      "done" := Complete(FromRef(WorkflowInput))])
  }

  lemma OpenWaitChain(wait: Key, signal: string, correlation: string, timeoutMs: nat, schema: SchemaRef, ctx: RegionCtx)
    requires wait != "done"
    ensures var region := OpenWait(wait, signal, correlation, timeoutMs, schema);
            CompleteChain(region, [wait, "done"]) && BindingsFit(region.nodes, [wait, "done"], ctx)
  {
  }

  lemma OpenWaitNestsNothing(wait: Key, signal: string, correlation: string, timeoutMs: nat, schema: SchemaRef, k: Key, ctx: RegionCtx)
    requires k in OpenWait(wait, signal, correlation, timeoutMs, schema).nodes
    ensures ChildrenAccepted(OpenWait(wait, signal, correlation, timeoutMs, schema).nodes[k], ctx)
  {
    assert ChildRegions(OpenWait(wait, signal, correlation, timeoutMs, schema).nodes[k]) == [];
  }

  lemma OpenWaitAccepted(wait: Key, signal: string, correlation: string, timeoutMs: nat, schema: SchemaRef, ctx: RegionCtx)
    requires wait != "done"
    ensures TreeAccepted(OpenWait(wait, signal, correlation, timeoutMs, schema), ctx)
  {
    var region := OpenWait(wait, signal, correlation, timeoutMs, schema);
    OpenWaitChain(wait, signal, correlation, timeoutMs, schema, ctx);
    ChainAcceptedIff(region, [wait, "done"], ctx);
    forall k | k in region.nodes
      ensures ChildrenAccepted(region.nodes[k], ctx)
    {
      OpenWaitNestsNothing(wait, signal, correlation, timeoutMs, schema, k, ctx);
    }
    TreeByNode(region, ctx);
  }

  /** It validates in every context, with every next port connected and its timeout port not. */
  lemma OpenWaitValidates(wait: Key, signal: string, correlation: string, timeoutMs: nat, schema: SchemaRef, ctx: RegionCtx)
    requires wait != "done"
    ensures var region := OpenWait(wait, signal, correlation, timeoutMs, schema);
            TreeAccepted(region, ctx) && Everywhere(region, NextSet) && !Everywhere(region, ExitsSet)
  {
    var region := OpenWait(wait, signal, correlation, timeoutMs, schema);
    OpenWaitAccepted(wait, signal, correlation, timeoutMs, schema, ctx);
    AcceptedExitsSetIff(region, ctx);
    assert !ExitsSet(wait, region.nodes[wait]);
  }

  /** Declares the wait and the end, and connects the success port only. */
  method DraftOpenWait(graph: RegionGraphBuilder, wait: string, signal: string, correlation: string, timeoutMs: nat, schema: SchemaRef)
    returns (r: Result<Region, BuildError>)
    requires graph.nodes == map[] && graph.start.None?
    modifies graph`nodes, graph`start
    ensures r.Ok? <==> ValidNodeKey(wait) && wait != "done"
    ensures r.Ok? ==> r.value == OpenWait(wait, signal, correlation, timeoutMs, schema)
  {
    var declared := graph.Declare(wait, WaitSignal(signal, Literal(correlation), Some(timeoutMs), wait, None));
    if declared.Err? {
      return Err(declared.error);
    }
    assert ValidNodeKey("done");
    declared := graph.Declare("done", Complete(FromRef(WorkflowInput)));
    if declared.Err? {
      return Err(declared.error);
    }
    var started := graph.StartAt(EntryPort(wait, graph.scope));
    var success := graph.Connect(ExitPort(wait, graph.scope, false), EntryPort("done", graph.scope));
    r := graph.Finish(schema, schema);
  }

  /** The builder publishes it: nothing asks for the timeout port to be connected. */
  method BuildOpenWait(name: string, version: nat, wait: string, signal: string, correlation: string, timeoutMs: nat,
                       schema: SchemaRef, schemas: set<SchemaRef>, text: Definition -> Option<nat>)
    returns (r: Result<Definition, BuildError>)
    requires ValidNodeKey(wait) && wait != "done" && schema in schemas
    ensures r.Ok? <==> Digestible(text, Definition(name, version, schema, schema, map[], None, OpenWait(wait, signal, correlation, timeoutMs, schema)))
    ensures r.Ok? ==> !Everywhere(r.value.root, ExitsSet)
  {
    var graph := new RegionGraphBuilder(0);
    var root := DraftOpenWait(graph, wait, signal, correlation, timeoutMs, schema);
    OpenWaitValidates(wait, signal, correlation, timeoutMs, schema, RootCtx(schema, schema));
    r := Build(name, version, root.value, schemas, text);
  }
}
