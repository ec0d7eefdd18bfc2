/** The fluent builder: a sequence of steps, each bound to the output of the one before. */
module FluentFlow {
  import opened Prelude
  import opened Bindings
  import opened Ir
  import opened Graph
  import opened Codecs
  import opened CompilerSpec
  import opened Compiler
  import opened RegionAnalysis
  import opened RegionTheorems
  import opened Validation
  import opened Chain
  import opened Builder

  // ----- bindings of a step -----

  /** `r` may be read by a step that comes after `keys`, all of which produce an output. */
  ghost predicate KnownAfter(keys: seq<Key>, node: Node, r: Reference, ctx: RegionCtx) {
    if r.NodeOutput? then r.node in keys else CheckContext(node, r, ctx).None?
  }

  /** `node` reads only what its context offers and the steps `keys` produce. */
  ghost predicate NodeFits(node: Node, keys: seq<Key>, ctx: RegionCtx) {
    && WithinLimits(node)
    && forall b :: b in NodeBindings(node) ==>
         Depth(b) <= MAX_DATA_DEPTH && forall r :: r in References(b) ==> KnownAfter(keys, node, r, ctx)
  }

  lemma WithNextKeeps(node: Node, to: Key, key: Key)
    ensures NodeBindings(WithNext(node, to)) == NodeBindings(node)
    ensures WithinLimits(WithNext(node, to)) == WithinLimits(node)
    ensures SuccessOutput(key, WithNext(node, to)) == SuccessOutput(key, node)
    ensures forall r, ctx :: CheckContext(WithNext(node, to), r, ctx) == CheckContext(node, r, ctx)
  {
  }

  /** A node and its replacement look the same to every binding check. */
  ghost predicate Alike(a: Node, b: Node) {
    && NodeBindings(a) == NodeBindings(b) && WithinLimits(a) == WithinLimits(b)
    && (forall k :: SuccessOutput(k, a) == SuccessOutput(k, b))
    && (forall r, ctx :: CheckContext(a, r, ctx) == CheckContext(b, r, ctx))
  }

  lemma WithNextAlike(node: Node, to: Key)
    ensures Alike(node, WithNext(node, to))
  {
    forall k
      ensures SuccessOutput(k, node) == SuccessOutput(k, WithNext(node, to))
    {
      WithNextKeeps(node, to, k);
    }
    WithNextKeeps(node, to, "");
  }

  /** The two chains agree up to place `i`. */
  ghost predicate AgreeTo(nodes: map<Key, Node>, keys: seq<Key>, nodes': map<Key, Node>, keys': seq<Key>, i: nat) {
    && i < |keys| && i < |keys'|
    && forall j :: 0 <= j <= i ==> keys[j] == keys'[j] && keys[j] in nodes && keys[j] in nodes' && Alike(nodes[keys[j]], nodes'[keys[j]])
  }

  lemma StepFitsAlike(nodes: map<Key, Node>, keys: seq<Key>, nodes': map<Key, Node>, keys': seq<Key>, i: nat, ctx: RegionCtx)
    requires AgreeTo(nodes, keys, nodes', keys', i) && StepFits(nodes, keys, i, ctx)
    ensures StepFits(nodes', keys', i, ctx)
  {
    forall b, r | b in NodeBindings(nodes'[keys'[i]]) && r in References(b)
      ensures StepMayRead(nodes', keys', i, r, ctx)
    {
      assert StepMayRead(nodes, keys, i, r, ctx);
      if r.NodeOutput? {
        var j :| 0 <= j < i && SuccessOutput(keys[j], nodes[keys[j]]) == Some(r);
        assert keys'[j] == keys[j];
      }
    }
  }

  /** Every node of the chain produces an output. */
  ghost predicate Producing(nodes: map<Key, Node>, keys: seq<Key>) {
    forall k :: k in keys ==> k in nodes && SuccessOutput(k, nodes[k]) == Some(NodeOutput(k))
  }

  lemma LastStepFits(nodes: map<Key, Node>, keys: seq<Key>, key: Key, node: Node, ctx: RegionCtx)
    requires Producing(nodes, keys) && key in nodes && Alike(node, nodes[key])
    ensures StepFits(nodes, keys + [key], |keys|, ctx) <==> NodeFits(node, keys, ctx)
  {
    var i, keys' := |keys|, keys + [key];
    forall b, r | b in NodeBindings(node) && r in References(b)
      ensures StepMayRead(nodes, keys', i, r, ctx) <==> KnownAfter(keys, node, r, ctx)
    {
      if r.NodeOutput? {
        LastMayRead(nodes, keys, key, r);
      }
    }
  }

  lemma LastMayRead(nodes: map<Key, Node>, keys: seq<Key>, key: Key, r: Reference)
    requires Producing(nodes, keys) && r.NodeOutput?
    ensures EarlierOutput(nodes, keys + [key], |keys|, r) <==> r.node in keys
  {
    var keys' := keys + [key];
    if r.node in keys {
      var j :| 0 <= j < |keys| && keys[j] == r.node;
      assert keys'[j] == keys[j];
    }
    if EarlierOutput(nodes, keys', |keys|, r) {
      var j :| 0 <= j < |keys| && keys'[j] in nodes && SuccessOutput(keys'[j], nodes[keys'[j]]) == Some(r);
      assert keys'[j] == keys[j] && keys[j] in keys;
    }
  }

  ghost function Appended(nodes: map<Key, Node>, tail: Option<Key>, key: Key, node: Node): map<Key, Node> {
    TailLinked(nodes, tail, key)[key := WithNext(node, key)]
  }

  lemma AppendedAgrees(nodes: map<Key, Node>, start: Option<Key>, tail: Option<Key>, keys: seq<Key>, key: Key, node: Node)
    requires Open(nodes, start, tail, keys) && key !in nodes
    ensures forall i :: 0 <= i < |keys| ==> AgreeTo(nodes, keys, Appended(nodes, tail, key, node), keys + [key], i)
    ensures forall k :: k in keys ==> k in nodes && k in Appended(nodes, tail, key, node) && Alike(nodes[k], Appended(nodes, tail, key, node)[k])
    ensures Alike(node, Appended(nodes, tail, key, node)[key])
  {
    OpenTail(nodes, start, tail, keys);
    var nodes' := Appended(nodes, tail, key, node);
    forall k | k in keys
      ensures k in nodes && k in nodes' && Alike(nodes[k], nodes'[k])
    {
      WithNextAlike(nodes[k], key);
    }
    WithNextAlike(node, key);
  }

  /** The grown chain fits exactly if the chain did and the new node fits after it. */
  lemma FitGrows(nodes: map<Key, Node>, start: Option<Key>, tail: Option<Key>, keys: seq<Key>, key: Key, node: Node, ctx: RegionCtx)
    requires Open(nodes, start, tail, keys) && key !in nodes && Producing(nodes, keys)
    ensures forall k :: k in keys + [key] ==> k in Appended(nodes, tail, key, node)
    ensures BindingsFit(Appended(nodes, tail, key, node), keys + [key], ctx) <==>
            BindingsFit(nodes, keys, ctx) && NodeFits(node, keys, ctx)
  {
    var nodes', keys' := Appended(nodes, tail, key, node), keys + [key];
    AppendedAgrees(nodes, start, tail, keys, key, node);
    forall i | 0 <= i < |keys|
      ensures StepFits(nodes, keys, i, ctx) <==> StepFits(nodes', keys', i, ctx)
    {
      EarlierStepFits(nodes, keys, nodes', keys', i, ctx);
    }
    LastStepFits(nodes', keys, key, node, ctx);
    SplitFits(nodes', keys, key, ctx);
  }

  lemma EarlierStepFits(nodes: map<Key, Node>, keys: seq<Key>, nodes': map<Key, Node>, keys': seq<Key>, i: nat, ctx: RegionCtx)
    requires AgreeTo(nodes, keys, nodes', keys', i)
    ensures StepFits(nodes, keys, i, ctx) <==> StepFits(nodes', keys', i, ctx)
  {
    if StepFits(nodes, keys, i, ctx) {
      StepFitsAlike(nodes, keys, nodes', keys', i, ctx);
    }
    if StepFits(nodes', keys', i, ctx) {
      StepFitsAlike(nodes', keys', nodes, keys, i, ctx);
    }
  }

  lemma SplitFits(nodes: map<Key, Node>, keys: seq<Key>, key: Key, ctx: RegionCtx)
    requires forall k :: k in keys + [key] ==> k in nodes
    ensures BindingsFit(nodes, keys + [key], ctx) <==>
            (forall i :: 0 <= i < |keys| ==> (keys + [key])[i] in nodes && StepFits(nodes, keys + [key], i, ctx)) &&
            ((keys + [key])[|keys|] in nodes && StepFits(nodes, keys + [key], |keys|, ctx))
  {
    assert forall i :: 0 <= i <= |keys| ==> (keys + [key])[i] in keys + [key];
  }

  // ----- the conditions of choose cases -----

  /** A case condition stays within the limits and reads only its scope and earlier steps. */
  ghost predicate ConditionFits(c: Condition, keys: seq<Key>, ctx: RegionCtx) {
    && OperatorCount(c) <= MAX_CONDITION_OPS
    && forall b :: b in ConditionBindings(c) ==> ScopedBinding(b, keys, ctx)
  }

  ghost predicate ScopedBinding(b: Binding, keys: seq<Key>, ctx: RegionCtx) {
    Depth(b) <= MAX_DATA_DEPTH && forall r :: r in References(b) ==> r in Base(ctx) || (r.NodeOutput? && r.node in keys)
  }

  ghost predicate CasesFit(cases: seq<ChooseCase>, keys: seq<Key>, ctx: RegionCtx) {
    forall i :: 0 <= i < |cases| ==> ConditionFits(cases[i].when, keys, ctx)
  }

  lemma EqInputFits(path: string, value: string, keys: seq<Key>, ctx: RegionCtx)
    ensures ConditionFits(EqInput(path, value), keys, ctx)
  {
  }

  lemma FlagTrueFits(path: string, keys: seq<Key>, ctx: RegionCtx)
    ensures ConditionFits(FlagTrue(path), keys, ctx)
  {
    var exists_, equals := Exists(From(WorkflowInput, Some(path))), EqInput(path, "true");
    var items := FlagTrue(path).items;
    assert items[1..] == [equals] && [equals][1..] == [];
    assert ConditionsBindings([equals]) == ConditionBindings(equals);
    assert ConditionBindings(FlagTrue(path)) == ConditionBindings(exists_) + ConditionBindings(equals);
    assert OperatorCount(equals) == 1 && OperatorCount(items[0]) == 1 && OperatorSum([]) == 0;
    assert OperatorSum([equals]) == OperatorCount(equals) + OperatorSum([equals][1..]);
    assert OperatorSum(items) == OperatorCount(items[0]) + OperatorSum(items[1..]);
  }

  /** The loop condition of `while_lt` as a case condition needs a loop around it. */
  lemma LtLoopFitsIff(path: string, value: string, keys: seq<Key>, ctx: RegionCtx)
    ensures ConditionFits(LtLoop(path, value), keys, ctx) <==> ctx.inLoop
  {
    var c := LtLoop(path, value);
    assert c.left in ConditionBindings(c) && LoopState in References(c.left);
  }

  lemma {:induction false} CasesBindingsHas(cases: seq<ChooseCase>, b: Binding)
    ensures b in CasesBindings(cases) <==> exists i :: 0 <= i < |cases| && b in ConditionBindings(cases[i].when)
  {
    if cases != [] {
      CasesBindingsHas(cases[1..], b);
      assert forall i :: 0 < i < |cases| ==> cases[1..][i - 1] == cases[i];
    }
  }

  lemma ChooseKnown(node: Node, keys: seq<Key>, r: Reference, ctx: RegionCtx)
    requires node.Choose?
    ensures KnownAfter(keys, node, r, ctx) <==> r in Base(ctx) || (r.NodeOutput? && r.node in keys)
  {
  }

  ghost predicate BindingKnown(b: Binding, node: Node, keys: seq<Key>, ctx: RegionCtx) {
    Depth(b) <= MAX_DATA_DEPTH && forall r :: r in References(b) ==> KnownAfter(keys, node, r, ctx)
  }

  lemma ScopedIffKnown(b: Binding, node: Node, keys: seq<Key>, ctx: RegionCtx)
    requires node.Choose?
    ensures ScopedBinding(b, keys, ctx) <==> BindingKnown(b, node, keys, ctx)
  {
    forall r | r in References(b)
      ensures KnownAfter(keys, node, r, ctx) <==> r in Base(ctx) || (r.NodeOutput? && r.node in keys)
    {
      ChooseKnown(node, keys, r, ctx);
    }
  }

  lemma ConditionFitsIff(node: Node, c: Condition, keys: seq<Key>, ctx: RegionCtx)
    requires node.Choose?
    ensures ConditionFits(c, keys, ctx) <==>
            OperatorCount(c) <= MAX_CONDITION_OPS && forall b :: b in ConditionBindings(c) ==> BindingKnown(b, node, keys, ctx)
  {
    forall b
      ensures ScopedBinding(b, keys, ctx) <==> BindingKnown(b, node, keys, ctx)
    {
      ScopedIffKnown(b, node, keys, ctx);
    }
  }

  lemma CasesFitIff(node: Node, keys: seq<Key>, ctx: RegionCtx)
    requires node.Choose?
    ensures CasesFit(node.cases, keys, ctx) <==>
            WithinLimits(node) && forall b :: b in CasesBindings(node.cases) ==> BindingKnown(b, node, keys, ctx)
  {
    forall i | 0 <= i < |node.cases|
      ensures ConditionFits(node.cases[i].when, keys, ctx) <==>
              OperatorCount(node.cases[i].when) <= MAX_CONDITION_OPS &&
              forall b :: b in ConditionBindings(node.cases[i].when) ==> BindingKnown(b, node, keys, ctx)
    {
      ConditionFitsIff(node, node.cases[i].when, keys, ctx);
    }
    forall b
      ensures b in CasesBindings(node.cases) <==> exists i :: 0 <= i < |node.cases| && b in ConditionBindings(node.cases[i].when)
    {
      CasesBindingsHas(node.cases, b);
    }
  }

  /** `source` is readable by any step after `keys`. */
  ghost predicate SourceKnown(source: Reference, keys: seq<Key>) {
    source in {WorkflowInput, ScopeInput} || (source.NodeOutput? && source.node in keys)
  }

  lemma ChooseFitsIff(source: Reference, cases: seq<ChooseCase>, default: Region, next: Key, keys: seq<Key>, ctx: RegionCtx)
    requires SourceKnown(source, keys)
    ensures NodeFits(Choose(FromRef(source), cases, default, next), keys, ctx) <==> CasesFit(cases, keys, ctx)
  {
    var node := Choose(FromRef(source), cases, default, next);
    CasesFitIff(node, keys, ctx);
    assert BindingKnown(FromRef(source), node, keys, ctx);
    assert NodeFits(node, keys, ctx) <==>
           WithinLimits(node) && forall b :: b in NodeBindings(node) ==> BindingKnown(b, node, keys, ctx);
  }

  lemma {:induction false} SameInputs(branches: seq<ParallelBranch>, input: Binding, b: Binding)
    requires (forall i :: 0 <= i < |branches| ==> branches[i].input == input) && b in BranchInputs(branches)
    ensures b == input
  {
    if b != branches[0].input {
      SameInputs(branches[1..], input, b);
    }
  }

  lemma ParallelFits(source: Reference, branches: seq<ParallelBranch>, next: Key, keys: seq<Key>, ctx: RegionCtx)
    requires SourceKnown(source, keys) && forall i :: 0 <= i < |branches| ==> branches[i].input == FromRef(source)
    ensures NodeFits(Parallel(branches, next), keys, ctx)
  {
    forall b | b in BranchInputs(branches)
      ensures b == FromRef(source)
    {
      SameInputs(branches, FromRef(source), b);
    }
  }

  // ----- compensation -----

  function Undo(handler: ActivityKey): Compensation {
    CompensateWith(handler, FromRef(ForwardOutput))
  }

  /** An activity as the fluent calls make it: it reads a known source and is undone, if at all, from its output. */
  ghost predicate PlainActivity(node: Node, keys: seq<Key>) {
    && node.Activity?
    && (exists source :: SourceKnown(source, keys) && node.input == FromRef(source))
    && (node.compensation.None? || exists handler :: node.compensation == Some(Undo(handler)))
  }

  lemma PlainActivityFits(node: Node, keys: seq<Key>, ctx: RegionCtx)
    requires PlainActivity(node, keys)
    ensures NodeFits(node, keys, ctx)
  {
    var source :| SourceKnown(source, keys) && node.input == FromRef(source);
    forall b | b in NodeBindings(node)
      ensures BindingKnown(b, node, keys, ctx)
    {
      assert b == FromRef(source) || (b == FromRef(ForwardOutput) && node.compensation.Some?);
    }
  }

  /** Attaching a compensation to the last step keeps the chain open. */
  lemma CompensateTail(nodes: map<Key, Node>, start: Option<Key>, tail: Option<Key>, keys: seq<Key>, handler: ActivityKey)
    requires Open(nodes, start, tail, keys) && tail.Some? && tail.value in nodes && nodes[tail.value].Activity?
    ensures Open(nodes[tail.value := nodes[tail.value].(compensation := Some(Undo(handler)))], start, tail, keys)
  {
    OpenTail(nodes, start, tail, keys);
  }

  /** Replacing the last node by one that fits as well changes nothing for the chain. */
  lemma ReplacedLastFits(nodes: map<Key, Node>, keys: seq<Key>, key: Key, node: Node, ctx: RegionCtx)
    requires Producing(nodes, keys) && key in nodes && key !in keys
    requires NodeFits(nodes[key], keys, ctx) && NodeFits(node, keys, ctx)
    ensures BindingsFit(nodes[key := node], keys + [key], ctx) <==> BindingsFit(nodes, keys + [key], ctx)
  {
    var nodes' := nodes[key := node];
    forall i | 0 <= i < |keys|
      ensures StepFits(nodes, keys + [key], i, ctx) <==> StepFits(nodes', keys + [key], i, ctx)
    {
      assert keys[i] in keys;
      assert AgreeTo(nodes, keys + [key], nodes', keys + [key], i);
      EarlierStepFits(nodes, keys + [key], nodes', keys + [key], i, ctx);
    }
    LastStepFits(nodes, keys, key, nodes[key], ctx);
    LastStepFits(nodes', keys, key, node, ctx);
    SplitFits(nodes, keys, key, ctx);
    SplitFits(nodes', keys, key, ctx);
  }

  // ----- the sequence -----

  /** A named body of a parallel step. */
  datatype NamedBody = NamedBody(name: string, body: Region)

  /** The chain so far, the current value, and the activity that a compensation would be for. */
  datatype Draft = Draft(nodes: map<Key, Node>, keys: seq<Key>, last: Binding, lastActivity: Option<Key>)

  function StartOf(keys: seq<Key>): Option<Key> {
    if keys == [] then None else Some(keys[0])
  }

  function TailOf(keys: seq<Key>): Option<Key> {
    if keys == [] then None else Some(keys[|keys| - 1])
  }

  function Empty(atRoot: bool): Draft {
    Draft(map[], [], FromRef(if atRoot then WorkflowInput else ScopeInput), None)
  }

  /** A node at the end of the chain whose output becomes the current value. */
  function Grown(d: Draft, key: Key, node: Node): Draft {
    Draft(TailLinked(d.nodes, TailOf(d.keys), key)[key := WithNext(node, key)], d.keys + [key], FromRef(NodeOutput(key)),
          if node.Activity? then Some(key) else None)
  }

  predicate CanCompensate(d: Draft) {
    d.lastActivity.Some? && d.lastActivity.value in d.nodes && d.nodes[d.lastActivity.value].Activity?
  }

  function Compensated(d: Draft, handler: ActivityKey): Draft
    requires CanCompensate(d)
  {
    var key := d.lastActivity.value;
    d.(nodes := d.nodes[key := d.nodes[key].(compensation := Some(Undo(handler)))])
  }

  /** The region that a terminal node makes of the chain. */
  function Ended(d: Draft, key: Key, node: Node, inputSchema: SchemaRef, outputSchema: SchemaRef): Region {
    Region([Root], inputSchema, outputSchema, (d.keys + [key])[0], TailLinked(d.nodes, TailOf(d.keys), key)[key := node])
  }

  predicate KeyFree(d: Draft, key: string) {
    ValidNodeKey(key) && key !in d.nodes
  }

  /** The chain is linked, and the last activity, if any, is its tail. */
  ghost predicate Steady(d: Draft) {
    && Open(d.nodes, StartOf(d.keys), TailOf(d.keys), d.keys)
    && (d.lastActivity.Some? ==> d.lastActivity == TailOf(d.keys) && CanCompensate(d))
  }

  class Sequence {
    const graph: RegionGraphBuilder
    var last: Binding
    var lastActivity: Option<Key>

    /** `atRoot`: a workflow reads its run input, a nested region its scope input. */
    constructor (scope: nat, atRoot: bool)
      ensures Valid() && fresh(graph) && State() == Empty(atRoot)
    {
      graph := new RegionGraphBuilder(scope);
      last := FromRef(if atRoot then WorkflowInput else ScopeInput);
      lastActivity := None;
    }

    ghost function State(): Draft
      reads this, graph
    {
      Draft(graph.nodes, graph.keys, last, lastActivity)
    }

    ghost predicate Valid()
      reads this, graph
    {
      Steady(State()) && graph.start == StartOf(graph.keys) && graph.tail == TailOf(graph.keys)
    }

    /** Appends one step and makes its output the current value. */
    method Step(key: string, node: Node) returns (r: Result<(), BuildError>)
      requires Valid() && Exits(node)
      modifies this, graph
      ensures Valid()
      ensures r.Ok? <==> KeyFree(old(State()), key)
      ensures State() == if r.Ok? then Grown(old(State()), key, node) else old(State())
      ensures r.Ok? ==> last == FromRef(NodeOutput(key)) && graph.keys == old(graph.keys) + [key] && graph.nodes[key] == WithNext(node, key)
    {
      var appended := graph.Append(key, node);
      if appended.Err? {
        return Err(appended.error);
      }
      assert WithNext(node, key).Activity? == node.Activity?;
      last := FromRef(NodeOutput(key));
      lastActivity := if node.Activity? then Some(key) else None;
      r := Ok(());
    }

    method Activity(key: string, activity: ActivityKey) returns (r: Result<(), BuildError>)
      requires Valid()
      modifies this, graph
      ensures Valid() && (r.Ok? <==> KeyFree(old(State()), key))
      ensures State() == if r.Ok? then Grown(old(State()), key, Node.Activity(activity, old(last), None, key)) else old(State())
    {
      r := Step(key, Node.Activity(activity, last, None, key));
    }

    method WaitSignal(key: string, signal: string, correlation: string) returns (r: Result<(), BuildError>)
      requires Valid()
      modifies this, graph
      ensures Valid() && (r.Ok? <==> KeyFree(old(State()), key))
      ensures State() ==
              if r.Ok? then Grown(old(State()), key, Node.WaitSignal(signal, Literal(correlation), None, key, None)) else old(State())
    {
      r := Step(key, Node.WaitSignal(signal, Literal(correlation), None, key, None));
    }

    method WhileLt(key: string, path: string, value: string, body: Region, maxIterations: nat) returns (r: Result<(), BuildError>)
      requires Valid()
      modifies this, graph
      ensures Valid() && (r.Ok? <==> KeyFree(old(State()), key))
      ensures State() ==
              if r.Ok? then Grown(old(State()), key, While(old(last), body.inputSchema, LtLoop(path, value), maxIterations, body, key))
              else old(State())
    {
      r := Step(key, While(last, body.inputSchema, LtLoop(path, value), maxIterations, body, key));
    }

    method Repeat(key: string, count: string, body: Region, maxIterations: nat) returns (r: Result<(), BuildError>)
      requires Valid()
      modifies this, graph
      ensures Valid() && (r.Ok? <==> KeyFree(old(State()), key))
      ensures State() ==
              if r.Ok? then Grown(old(State()), key, Node.Repeat(Literal(count), old(last), body.inputSchema, maxIterations, body, key))
              else old(State())
    {
      r := Step(key, Node.Repeat(Literal(count), last, body.inputSchema, maxIterations, body, key));
    }

    method Foreach(key: string, body: Region, maxItems: nat, maxConcurrency: nat) returns (r: Result<(), BuildError>)
      requires Valid()
      modifies this, graph
      ensures Valid() && (r.Ok? <==> KeyFree(old(State()), key))
      ensures State() ==
              if r.Ok? then Grown(old(State()), key, Node.Foreach(old(last), body.inputSchema, maxItems, maxConcurrency, body, key))
              else old(State())
    {
      r := Step(key, Node.Foreach(last, body.inputSchema, maxItems, maxConcurrency, body, key));
    }

    method Saga(key: string, body: Region) returns (r: Result<(), BuildError>)
      requires Valid()
      modifies this, graph
      ensures Valid() && (r.Ok? <==> KeyFree(old(State()), key))
      ensures State() == if r.Ok? then Grown(old(State()), key, Node.Saga(old(last), body, key)) else old(State())
    {
      r := Step(key, Node.Saga(last, body, key));
    }

    method Choose(key: string, cases: seq<ChooseCase>, default: Region) returns (r: Result<(), BuildError>)
      requires Valid()
      modifies this, graph
      ensures Valid() && (r.Ok? <==> cases != [] && DistinctNames(ChooseNames(cases)) && KeyFree(old(State()), key))
      ensures State() == if r.Ok? then Grown(old(State()), key, Node.Choose(old(last), cases, default, key)) else old(State())
    {
      if cases == [] {
        return Err(NoCases);
      }
      var named := CheckNames(ChooseNames(cases));
      if !named {
        return Err(InvalidNames);
      }
      r := Step(key, Node.Choose(last, cases, default, key));
    }

    method Parallel(key: string, bodies: seq<NamedBody>) returns (r: Result<(), BuildError>)
      requires Valid()
      modifies this, graph
      ensures Valid() && (r.Ok? <==> DistinctNames(BodyNames(bodies)) && KeyFree(old(State()), key))
      ensures State() == if r.Ok? then Grown(old(State()), key, Node.Parallel(BoundBodies(bodies, old(last)), key)) else old(State())
    {
      var named := CheckNames(BodyNames(bodies));
      if !named {
        return Err(InvalidNames);
      }
      r := Step(key, Node.Parallel(BoundBodies(bodies, last), key));
    }

    /** Must follow an activity; replaces the compensation it may have had. */
    method Compensate(handler: ActivityKey) returns (r: Result<(), BuildError>)
      requires Valid()
      modifies this, graph
      ensures Valid() && (r.Ok? <==> CanCompensate(old(State())))
      ensures State() == if r.Ok? then Compensated(old(State()), handler) else old(State())
    {
      if lastActivity.None? {
        return Err(NotAnActivity);
      }
      CompensateTail(graph.nodes, graph.start, graph.tail, graph.keys, handler);
      r := graph.SetCompensation(lastActivity.value, Undo(handler));
    }

    /** Completes the region with the current value. */
    method Complete(key: string, inputSchema: SchemaRef, outputSchema: SchemaRef) returns (r: Result<Region, BuildError>)
      requires Valid()
      modifies this, graph
      ensures r.Ok? <==> KeyFree(old(State()), key)
      ensures r.Ok? ==> r.value == Ended(old(State()), key, Node.Complete(old(last)), inputSchema, outputSchema)
    {
      r := graph.Close(key, Node.Complete(last), inputSchema, outputSchema);
    }

    method Fail(key: string, code: string, message: string, inputSchema: SchemaRef, outputSchema: SchemaRef)
      returns (r: Result<Region, BuildError>)
      requires Valid()
      modifies this, graph
      ensures r.Ok? <==> KeyFree(old(State()), key)
      ensures r.Ok? ==> r.value == Ended(old(State()), key, Node.Fail(code, message), inputSchema, outputSchema)
    {
      r := graph.Close(key, Node.Fail(code, message), inputSchema, outputSchema);
    }
  }

  function ChooseNames(cases: seq<ChooseCase>): seq<string> {
    seq(|cases|, i requires 0 <= i < |cases| => cases[i].name)
  }

  function BodyNames(bodies: seq<NamedBody>): seq<string> {
    seq(|bodies|, i requires 0 <= i < |bodies| => bodies[i].name)
  }

  /** Every branch gets the current value as its input. */
  function BoundBodies(bodies: seq<NamedBody>, input: Binding): seq<ParallelBranch> {
    seq(|bodies|, i requires 0 <= i < |bodies| => ParallelBranch(bodies[i].name, input, bodies[i].body))
  }

  // ----- a root workflow that waits with a timeout -----

  /** A timed wait that recovers on a timeout; both ways end in `finish`. */
  function TimedWaitNodes(wait: Key, signal: string, correlation: string, timeoutMs: nat, recover: Key, activity: ActivityKey): map<Key, Node> {
    map["finish" := Node.Complete(FromRef(WorkflowInput)),
        recover := Node.Activity(activity, FromRef(WorkflowInput), None, "finish"),
        wait := Node.WaitSignal(signal, Literal(correlation), Some(timeoutMs), "finish", Some(recover))]
  }

  ghost predicate TimedWaitRegion(region: Region, wait: Key, recover: Key) {
    && wait != recover && wait != "finish" && recover != "finish" && region.start == wait
    && exists signal, correlation, timeoutMs, activity ::
         region.nodes == TimedWaitNodes(wait, signal, correlation, timeoutMs, recover, activity)
  }

  lemma TimedWaitEdges(region: Region, wait: Key, recover: Key)
    requires TimedWaitRegion(region, wait, recover)
    ensures region.nodes.Keys == {wait, recover, "finish"}
    ensures Edges(OutgoingOf(region.nodes), wait) == [(Next, "finish"), (Timeout, recover)]
    ensures Edges(OutgoingOf(region.nodes), recover) == [(Next, "finish")]
    ensures Edges(OutgoingOf(region.nodes), "finish") == []
    ensures forall k :: k in region.nodes ==> WithinLimits(region.nodes[k])
    ensures forall k, b :: k in region.nodes && b in NodeBindings(region.nodes[k]) ==> Depth(b) == 1 && forall r :: r in References(b) ==> r == WorkflowInput
  {
    EdgesOf(region.nodes, wait);
    EdgesOf(region.nodes, recover);
    EdgesOf(region.nodes, "finish");
  }

  lemma TimedWaitShaped(region: Region, wait: Key, recover: Key)
    requires TimedWaitRegion(region, wait, recover)
    ensures WellShaped(region)
  {
    TimedWaitEdges(region, wait, recover);
    var out := OutgoingOf(region.nodes);
    var height: map<Key, nat> := map[wait := 0, recover := 1, "finish" := 2];
    forall h: Hop | HasHop(out, h)
      ensures h.source in height && h.target in height && height[h.source] < height[h.target]
    {
      assert h.source in region.nodes;
    }
    RisingAcyclic(out, height, wait);
    forall k, e | k in region.nodes && e in Successors(region.nodes[k])
      ensures e.1 in region.nodes
    {
      EdgesOf(region.nodes, k);
    }
  }

  lemma TimedWaitReached(region: Region, wait: Key, recover: Key, k: Key)
    requires TimedWaitRegion(region, wait, recover) && k in region.nodes
    ensures Reaches(OutgoingOf(region.nodes), wait, k)
  {
    TimedWaitEdges(region, wait, recover);
    var out := OutgoingOf(region.nodes);
    ReachesRefl(out, wait);
    HopLeads(out, Hop(wait, Next, "finish"));
    HopLeads(out, Hop(wait, Timeout, recover));
  }

  lemma TimedWaitValid(region: Region, wait: Key, recover: Key, ctx: RegionCtx, k: Key)
    requires TimedWaitRegion(region, wait, recover) && k in region.nodes
    ensures NodeValid(region, ctx, k)
  {
    TimedWaitEdges(region, wait, recover);
  }

  /** The timed-wait flow is accepted in every context. */
  lemma TimedWaitAccepted(region: Region, wait: Key, recover: Key, ctx: RegionCtx)
    requires TimedWaitRegion(region, wait, recover)
    ensures Accepted(region, ctx)
  {
    TimedWaitShaped(region, wait, recover);
    forall k | k in region.nodes
      ensures Reaches(OutgoingOf(region.nodes), region.start, k) && NodeValid(region, ctx, k)
    {
      TimedWaitReached(region, wait, recover, k);
      TimedWaitValid(region, wait, recover, ctx, k);
    }
    ValidIsAccepted(region, ctx);
  }

  /** Declares the wait, its recovery and the end, not connected yet. */
  method DeclareTimedWait(graph: RegionGraphBuilder, wait: string, waiting: Node, recover: string, recovering: Node, finishing: Node)
    returns (r: Result<(), BuildError>)
    requires graph.nodes == map[]
    modifies graph`nodes
    ensures r.Ok? <==> ValidNodeKey(wait) && ValidNodeKey(recover) && wait != recover && wait != "finish" && recover != "finish"
    ensures r.Ok? ==> graph.nodes == map[wait := WithNext(waiting, wait), recover := WithNext(recovering, recover),
                                         "finish" := WithNext(finishing, "finish")]
  {
    var declared := graph.Declare(wait, waiting);
    if declared.Err? {
      return Err(declared.error);
    }
    declared := graph.Declare(recover, recovering);
    if declared.Err? {
      return Err(declared.error);
    }
    assert ValidNodeKey("finish");
    declared := graph.Declare("finish", finishing);
    if declared.Err? {
      return Err(declared.error);
    }
    r := Ok(());
  }

  /** Starts at the wait and connects its two ports and the recovery. */
  method ConnectTimedWait(graph: RegionGraphBuilder, wait: Key, recover: Key)
    requires graph.start.None? && wait in graph.nodes && recover in graph.nodes && wait != recover
    requires graph.nodes[wait].WaitSignal? && graph.nodes[wait].onTimeout.None? && graph.nodes[recover].Activity?
    modifies graph`nodes, graph`start
    ensures graph.start == Some(wait)
    ensures graph.nodes == old(graph.nodes)[wait := WithNext(old(graph.nodes[wait].(onTimeout := Some(recover))), "finish")]
                                           [recover := WithNext(old(graph.nodes)[recover], "finish")]
  {
    var scope := graph.scope;
    var started := graph.StartAt(EntryPort(wait, scope));
    var success := graph.Connect(ExitPort(wait, scope, false), EntryPort("finish", scope));
    var timeout := graph.Connect(ExitPort(wait, scope, true), EntryPort(recover, scope));
    var rejoin := graph.Connect(ExitPort(recover, scope, false), EntryPort("finish", scope));
  }

  method TimedWaitFlow(scope: nat, wait: string, signal: string, correlation: string, timeoutMs: nat,
                       recover: string, activity: ActivityKey, schema: SchemaRef)
    returns (r: Result<Region, BuildError>)
    ensures r.Ok? <==> && ValidNodeKey(wait) && ValidNodeKey(recover) && timeoutMs > 0
                       && wait != recover && wait != "finish" && recover != "finish"
    ensures r.Ok? ==> TimedWaitRegion(r.value, wait, recover)
    ensures r.Ok? ==> r.value.nodes == TimedWaitNodes(wait, signal, correlation, timeoutMs, recover, activity)
  {
    if timeoutMs == 0 {
      return Err(OutOfRange);
    }
    var graph := new RegionGraphBuilder(scope);
    var declared := DeclareTimedWait(graph,
      wait, Node.WaitSignal(signal, Literal(correlation), Some(timeoutMs), wait, None),
      recover, Node.Activity(activity, FromRef(WorkflowInput), None, recover), Node.Complete(FromRef(WorkflowInput)));
    if declared.Err? {
      return Err(declared.error);
    }
    ConnectTimedWait(graph, wait, recover);
    r := graph.Finish(schema, schema);
    assert graph.nodes == TimedWaitNodes(wait, signal, correlation, timeoutMs, recover, activity);
  }

  // ----- whole scripts of fluent calls -----

  datatype Call =
    | CallActivity(key: string, activity: ActivityKey)
    | CallCompensate(handler: ActivityKey)
    | CallWaitSignal(key: string, signal: string, correlation: string)
    | CallWhileLt(key: string, path: string, value: string, body: Region, maxIterations: nat)
    | CallRepeat(key: string, count: string, body: Region, maxIterations: nat)
    | CallForeach(key: string, body: Region, maxItems: nat, maxConcurrency: nat)
    | CallSaga(key: string, body: Region)
    | CallChoose(key: string, cases: seq<ChooseCase>, default: Region)
    | CallParallel(key: string, bodies: seq<NamedBody>)

  // ----- what scripts of calls yield -----

  predicate NamesFit(call: Call) {
    match call
    case CallChoose(_, cases, _) => cases != [] && DistinctNames(ChooseNames(cases))
    case CallParallel(_, bodies) => DistinctNames(BodyNames(bodies))
    case _ => true
  }

  predicate Allowed(d: Draft, call: Call) {
    if call.CallCompensate? then CanCompensate(d) else NamesFit(call) && KeyFree(d, call.key)
  }

  /** The node that a call appends. */
  function CallNode(call: Call, last: Binding): Node
    requires !call.CallCompensate?
  {
    match call
    case CallActivity(key, activity) => Node.Activity(activity, last, None, key)
    case CallWaitSignal(key, signal, correlation) => Node.WaitSignal(signal, Literal(correlation), None, key, None)
    case CallWhileLt(key, path, value, body, n) => While(last, body.inputSchema, LtLoop(path, value), n, body, key)
    case CallRepeat(key, count, body, n) => Node.Repeat(Literal(count), last, body.inputSchema, n, body, key)
    case CallForeach(key, body, n, m) => Node.Foreach(last, body.inputSchema, n, m, body, key)
    case CallSaga(key, body) => Node.Saga(last, body, key)
    case CallChoose(key, cases, default) => Node.Choose(last, cases, default, key)
    case CallParallel(key, bodies) => Node.Parallel(BoundBodies(bodies, last), key)
  }

  function After(d: Draft, call: Call): Draft
    requires Allowed(d, call)
  {
    if call.CallCompensate? then Compensated(d, call.handler) else Grown(d, call.key, CallNode(call, d.last))
  }

  /** The draft after the first `i` calls, if all of them are allowed. */
  function Play(d: Draft, calls: seq<Call>, i: nat): Option<Draft>
    requires i <= |calls|
  {
    if i == 0 then Some(d)
    else match Play(d, calls, i - 1)
      case None => None
      case Some(before) => if Allowed(before, calls[i - 1]) then Some(After(before, calls[i - 1])) else None
  }

  lemma {:induction false} PlayStuck(d: Draft, calls: seq<Call>, i: nat, j: nat)
    requires i <= j <= |calls| && Play(d, calls, i).None?
    ensures Play(d, calls, j).None?
  {
    if i < j {
      PlayStuck(d, calls, i, j - 1);
    }
  }

  // ----- when a finished script validates -----

  /** What the calls keep: one chain of producing steps, the current value known, the last activity plain. */
  ghost predicate Fluent(d: Draft) {
    && Steady(d) && Producing(d.nodes, d.keys)
    && (exists source :: d.last == FromRef(source) && SourceKnown(source, d.keys))
    && (d.lastActivity.Some? ==> PlainActivity(d.nodes[d.lastActivity.value], d.keys[..|d.keys| - 1]))
  }

  lemma EmptyFluent(atRoot: bool)
    ensures Fluent(Empty(atRoot))
  {
    var source := if atRoot then WorkflowInput else ScopeInput;
    assert Empty(atRoot).last == FromRef(source) && SourceKnown(source, []);
  }

  lemma GrownSteady(d: Draft, key: Key, node: Node)
    requires Steady(d) && key !in d.nodes && Exits(node)
    ensures Steady(Grown(d, key, node))
  {
    OpenGrows(d.nodes, StartOf(d.keys), TailOf(d.keys), d.keys, key, WithNext(node, key));
    assert WithNext(node, key).Activity? == node.Activity?;
  }

  lemma GrownProducing(d: Draft, key: Key, node: Node)
    requires Steady(d) && Producing(d.nodes, d.keys) && key !in d.nodes && Exits(node) && !node.Delay? && !node.WaitUntil?
    ensures Producing(Grown(d, key, node).nodes, d.keys + [key])
  {
    AppendedAgrees(d.nodes, StartOf(d.keys), TailOf(d.keys), d.keys, key, node);
    WithNextKeeps(node, key, key);
  }

  lemma GrownFluent(d: Draft, key: Key, node: Node)
    requires Fluent(d) && key !in d.nodes && Exits(node) && !node.Delay? && !node.WaitUntil?
    requires node.Activity? ==> node.input == d.last && node.compensation.None?
    ensures Fluent(Grown(d, key, node))
  {
    var d' := Grown(d, key, node);
    GrownSteady(d, key, node);
    GrownProducing(d, key, node);
    assert d'.last == FromRef(NodeOutput(key)) && SourceKnown(NodeOutput(key), d'.keys);
    assert d'.keys[..|d'.keys| - 1] == d.keys;
  }

  lemma CompensatedFluent(d: Draft, handler: ActivityKey)
    requires Fluent(d) && CanCompensate(d)
    ensures Fluent(Compensated(d, handler))
  {
    CompensateTail(d.nodes, StartOf(d.keys), TailOf(d.keys), d.keys, handler);
  }

  /** Every call keeps the draft fluent, whatever its conditions and bodies. */
  lemma AfterFluent(d: Draft, call: Call)
    requires Fluent(d) && Allowed(d, call)
    ensures Fluent(After(d, call))
  {
    if call.CallCompensate? {
      CompensatedFluent(d, call.handler);
    } else {
      GrownFluent(d, call.key, CallNode(call, d.last));
    }
  }

  ghost predicate DraftFits(d: Draft, ctx: RegionCtx)
    requires forall k :: k in d.keys ==> k in d.nodes
  {
    BindingsFit(d.nodes, d.keys, ctx)
  }

  /** The conditions of a call read only their scope and the outputs of earlier calls. */
  ghost predicate ConditionsFit(d: Draft, call: Call, ctx: RegionCtx) {
    call.CallChoose? ==> CasesFit(call.cases, d.keys, ctx)
  }

  lemma PlainCallFits(call: Call, source: Reference, keys: seq<Key>, ctx: RegionCtx)
    requires !call.CallCompensate? && !call.CallChoose? && !call.CallParallel? && !call.CallWhileLt? && SourceKnown(source, keys)
    ensures NodeFits(CallNode(call, FromRef(source)), keys, ctx)
  {
  }

  lemma WhileFits(call: Call, source: Reference, keys: seq<Key>, ctx: RegionCtx)
    requires call.CallWhileLt? && SourceKnown(source, keys)
    ensures NodeFits(CallNode(call, FromRef(source)), keys, ctx)
  {
  }

  lemma CallFitsIff(d: Draft, call: Call, ctx: RegionCtx)
    requires Fluent(d) && !call.CallCompensate?
    ensures NodeFits(CallNode(call, d.last), d.keys, ctx) <==> ConditionsFit(d, call, ctx)
  {
    var source :| d.last == FromRef(source) && SourceKnown(source, d.keys);
    match call
    case CallChoose(key, cases, default) => ChooseFitsIff(source, cases, default, key, d.keys, ctx);
    case CallParallel(key, bodies) => ParallelFits(source, BoundBodies(bodies, d.last), key, d.keys, ctx);
    case CallWhileLt(_, _, _, _, _) => WhileFits(call, source, d.keys, ctx);
    case _ => PlainCallFits(call, source, d.keys, ctx);
  }

  lemma CompensatedFitsIff(d: Draft, handler: ActivityKey, ctx: RegionCtx)
    requires Fluent(d) && CanCompensate(d)
    ensures DraftFits(Compensated(d, handler), ctx) <==> DraftFits(d, ctx)
  {
    CompensatedFluent(d, handler);
    var n := |d.keys| - 1;
    var earlier, key := d.keys[..n], d.keys[n];
    var node := Compensated(d, handler).nodes[key];
    assert d.keys == earlier + [key];
    PlainActivityFits(d.nodes[key], earlier, ctx);
    PlainActivityFits(node, earlier, ctx);
    ReplacedLastFits(d.nodes, earlier, key, node, ctx);
  }

  /** A call keeps the draft fitting exactly if its conditions fit. */
  lemma AfterFitsIff(d: Draft, call: Call, ctx: RegionCtx)
    requires Fluent(d) && Allowed(d, call) && Fluent(After(d, call))
    ensures DraftFits(After(d, call), ctx) <==> DraftFits(d, ctx) && ConditionsFit(d, call, ctx)
  {
    if call.CallCompensate? {
      CompensatedFitsIff(d, call.handler, ctx);
    } else {
      CallFitsIff(d, call, ctx);
      FitGrows(d.nodes, StartOf(d.keys), TailOf(d.keys), d.keys, call.key, CallNode(call, d.last), ctx);
    }
  }

  // ----- nested regions -----

  ghost predicate NodesNest(nodes: map<Key, Node>, ctx: RegionCtx) {
    forall k :: k in nodes ==> ChildrenAccepted(nodes[k], ctx)
  }

  /** The bodies given to a call validate at their place. */
  ghost predicate BodiesAccepted(call: Call, ctx: RegionCtx) {
    !call.CallCompensate? ==> ChildrenAccepted(CallNode(call, FromRef(ScopeInput)), ctx)
  }

  /** Two nodes with the same bodies put them in the same context. */
  ghost predicate SameNest(a: Node, b: Node) {
    && ChildRegions(a) == ChildRegions(b)
    && forall child, ctx :: ChildCtx(a, child, ctx) == ChildCtx(b, child, ctx)
  }

  lemma SameNestAccepted(a: Node, b: Node, ctx: RegionCtx)
    requires SameNest(a, b)
    ensures ChildrenAccepted(a, ctx) <==> ChildrenAccepted(b, ctx)
  {
    forall child
      ensures ChildAccepted(a, child, ctx) <==> ChildAccepted(b, child, ctx)
    {
      assert ChildCtx(a, child, ctx) == ChildCtx(b, child, ctx);
    }
  }

  lemma WithNextNests(node: Node, to: Key)
    ensures SameNest(node, WithNext(node, to))
  {
  }

  lemma CallNests(call: Call, last: Binding)
    requires !call.CallCompensate?
    ensures SameNest(CallNode(call, last), CallNode(call, FromRef(ScopeInput)))
  {
    if call.CallParallel? {
      assert ChildRegions(CallNode(call, last)) == ChildRegions(CallNode(call, FromRef(ScopeInput)));
    }
  }

  lemma NestAdds(nodes: map<Key, Node>, key: Key, node: Node, ctx: RegionCtx)
    requires key in nodes ==> SameNest(nodes[key], node)
    ensures NodesNest(nodes[key := node], ctx) <==> NodesNest(nodes, ctx) && ChildrenAccepted(node, ctx)
  {
    if key in nodes {
      SameNestAccepted(nodes[key], node, ctx);
    }
    var nodes' := nodes[key := node];
    assert key in nodes' && nodes'[key] == node;
    assert forall k :: k in nodes ==> k in nodes' && (k != key ==> nodes'[k] == nodes[k]);
  }

  lemma LinkedNests(nodes: map<Key, Node>, tail: Option<Key>, key: Key, ctx: RegionCtx)
    ensures NodesNest(TailLinked(nodes, tail, key), ctx) <==> NodesNest(nodes, ctx)
  {
    if tail.Some? && tail.value in nodes {
      WithNextNests(nodes[tail.value], key);
      NestAdds(nodes, tail.value, WithNext(nodes[tail.value], key), ctx);
      SameNestAccepted(nodes[tail.value], WithNext(nodes[tail.value], key), ctx);
    }
  }

  lemma AppendedNests(nodes: map<Key, Node>, tail: Option<Key>, key: Key, node: Node, ctx: RegionCtx)
    requires key !in nodes
    ensures NodesNest(Appended(nodes, tail, key, node), ctx) <==> NodesNest(nodes, ctx) && ChildrenAccepted(node, ctx)
  {
    LinkedNests(nodes, tail, key, ctx);
    NestAdds(TailLinked(nodes, tail, key), key, WithNext(node, key), ctx);
    WithNextNests(node, key);
    SameNestAccepted(node, WithNext(node, key), ctx);
  }

  lemma AfterNestsIff(d: Draft, call: Call, ctx: RegionCtx)
    requires Allowed(d, call)
    ensures NodesNest(After(d, call).nodes, ctx) <==> NodesNest(d.nodes, ctx) && BodiesAccepted(call, ctx)
  {
    if call.CallCompensate? {
      var key := d.lastActivity.value;
      var node := d.nodes[key].(compensation := Some(Undo(call.handler)));
      assert SameNest(d.nodes[key], node);
      NestAdds(d.nodes, key, node, ctx);
    } else {
      CallNests(call, d.last);
      SameNestAccepted(CallNode(call, d.last), CallNode(call, FromRef(ScopeInput)), ctx);
      AppendedNests(d.nodes, TailOf(d.keys), call.key, CallNode(call, d.last), ctx);
    }
  }

  // ----- whole scripts -----

  lemma {:induction false} PlayFluent(atRoot: bool, calls: seq<Call>, i: nat)
    requires i <= |calls| && Play(Empty(atRoot), calls, i).Some?
    ensures Fluent(Play(Empty(atRoot), calls, i).value)
  {
    if i == 0 {
      EmptyFluent(atRoot);
    } else {
      PlayFluent(atRoot, calls, i - 1);
      AfterFluent(Play(Empty(atRoot), calls, i - 1).value, calls[i - 1]);
    }
  }

  /** Call `j` of the script fits: its conditions and its bodies suit the place where it stands. */
  ghost predicate CallFits(atRoot: bool, calls: seq<Call>, j: nat, ctx: RegionCtx)
    requires j < |calls|
  {
    && Play(Empty(atRoot), calls, j).Some?
    && ConditionsFit(Play(Empty(atRoot), calls, j).value, calls[j], ctx)
    && BodiesAccepted(calls[j], ctx)
  }

  ghost predicate CallsFit(atRoot: bool, calls: seq<Call>, i: nat, ctx: RegionCtx)
    requires i <= |calls|
  {
    forall j: nat :: j < i ==> CallFits(atRoot, calls, j, ctx)
  }

  lemma CallsFitSnoc(atRoot: bool, calls: seq<Call>, i: nat, ctx: RegionCtx)
    requires 0 < i <= |calls|
    ensures CallsFit(atRoot, calls, i, ctx) <==> CallsFit(atRoot, calls, i - 1, ctx) && CallFits(atRoot, calls, i - 1, ctx)
  {
  }

  /** The draft validates so far: its steps and the regions nested in them. */
  ghost predicate DraftSound(d: Draft, ctx: RegionCtx)
    requires forall k :: k in d.keys ==> k in d.nodes
  {
    DraftFits(d, ctx) && NodesNest(d.nodes, ctx)
  }

  lemma AfterSoundIff(d: Draft, call: Call, ctx: RegionCtx)
    requires Fluent(d) && Allowed(d, call) && Fluent(After(d, call))
    ensures DraftSound(After(d, call), ctx) <==> DraftSound(d, ctx) && ConditionsFit(d, call, ctx) && BodiesAccepted(call, ctx)
  {
    AfterFitsIff(d, call, ctx);
    AfterNestsIff(d, call, ctx);
  }

  lemma {:induction false} PlayFitsIff(atRoot: bool, calls: seq<Call>, i: nat, ctx: RegionCtx)
    requires i <= |calls| && Play(Empty(atRoot), calls, i).Some?
    ensures Fluent(Play(Empty(atRoot), calls, i).value)
    ensures DraftSound(Play(Empty(atRoot), calls, i).value, ctx) <==> CallsFit(atRoot, calls, i, ctx)
  {
    PlayFluent(atRoot, calls, i);
    if i > 0 {
      PlayFitsIff(atRoot, calls, i - 1, ctx);
      AfterSoundIff(Play(Empty(atRoot), calls, i - 1).value, calls[i - 1], ctx);
      CallsFitSnoc(atRoot, calls, i, ctx);
    }
  }

  lemma EndingFits(d: Draft, node: Node, ctx: RegionCtx)
    requires Fluent(d) && (node == Node.Complete(d.last) || node.Fail?)
    ensures NodeFits(node, d.keys, ctx) && ChildrenAccepted(node, ctx)
  {
    var source :| d.last == FromRef(source) && SourceKnown(source, d.keys);
  }

  lemma EndedValidatesIff(d: Draft, key: Key, node: Node, inputSchema: SchemaRef, outputSchema: SchemaRef, ctx: RegionCtx)
    requires Fluent(d) && key !in d.nodes && (node == Node.Complete(d.last) || node.Fail?)
    ensures TreeAccepted(Ended(d, key, node, inputSchema, outputSchema), ctx) <==> DraftSound(d, ctx)
  {
    var region := Ended(d, key, node, inputSchema, outputSchema);
    assert WithNext(node, key) == node;
    OpenCloses(d.nodes, StartOf(d.keys), TailOf(d.keys), d.keys, key, node, region);
    EndingFits(d, node, ctx);
    FitGrows(d.nodes, StartOf(d.keys), TailOf(d.keys), d.keys, key, node, ctx);
    AppendedNests(d.nodes, TailOf(d.keys), key, node, ctx);
    ChainAcceptedIff(region, d.keys + [key], ctx);
    TreeByNode(region, ctx);
  }

  /**
   * A script of any calls, of any length, that is completed or failed in the end validates in a
   * context if and only if every call fits there: case conditions read only their scope and the
   * outputs of earlier calls, and the bodies validate at their place.
   */
  lemma ScriptValidatesIff(atRoot: bool, calls: seq<Call>, key: string, ending: Node, inputSchema: SchemaRef, outputSchema: SchemaRef, ctx: RegionCtx)
    requires Play(Empty(atRoot), calls, |calls|).Some?
    requires var d := Play(Empty(atRoot), calls, |calls|).value;
             KeyFree(d, key) && (ending == Node.Complete(d.last) || ending.Fail?)
    ensures TreeAccepted(Ended(Play(Empty(atRoot), calls, |calls|).value, key, ending, inputSchema, outputSchema), ctx) <==>
            CallsFit(atRoot, calls, |calls|, ctx)
  {
    PlayFitsIff(atRoot, calls, |calls|, ctx);
    EndedValidatesIff(Play(Empty(atRoot), calls, |calls|).value, key, ending, inputSchema, outputSchema, ctx);
  }

  /** What a call did: the draft after it if it was allowed, else the draft as it was. */
  ghost predicate Did(before: Draft, call: Call, ok: bool, after: Draft) {
    (ok <==> Allowed(before, call)) && after == if ok then After(before, call) else before
  }

  method ApplyStep(s: Sequence, call: Call) returns (r: Result<(), BuildError>)
    requires s.Valid() && (call.CallActivity? || call.CallWaitSignal? || call.CallCompensate?)
    modifies s, s.graph
    ensures s.Valid() && Did(old(s.State()), call, r.Ok?, s.State())
  {
    match call {
      case CallActivity(key, activity) => r := s.Activity(key, activity);
      case CallWaitSignal(key, signal, correlation) => r := s.WaitSignal(key, signal, correlation);
      case CallCompensate(handler) => r := s.Compensate(handler);
    }
  }

  method ApplyBody(s: Sequence, call: Call) returns (r: Result<(), BuildError>)
    requires s.Valid() && (call.CallWhileLt? || call.CallRepeat? || call.CallForeach? || call.CallSaga?)
    modifies s, s.graph
    ensures s.Valid() && Did(old(s.State()), call, r.Ok?, s.State())
  {
    match call {
      case CallWhileLt(key, path, value, body, n) => r := s.WhileLt(key, path, value, body, n);
      case CallRepeat(key, count, body, n) => r := s.Repeat(key, count, body, n);
      case CallForeach(key, body, n, m) => r := s.Foreach(key, body, n, m);
      case CallSaga(key, body) => r := s.Saga(key, body);
    }
  }

  method Apply(s: Sequence, call: Call) returns (r: Result<(), BuildError>)
    requires s.Valid()
    modifies s, s.graph
    ensures s.Valid() && Did(old(s.State()), call, r.Ok?, s.State())
  {
    match call {
      case CallChoose(key, cases, default) => r := s.Choose(key, cases, default);
      case CallParallel(key, bodies) => r := s.Parallel(key, bodies);
      case CallActivity(_, _) => r := ApplyStep(s, call);
      case CallWaitSignal(_, _, _) => r := ApplyStep(s, call);
      case CallCompensate(_) => r := ApplyStep(s, call);
      case _ => r := ApplyBody(s, call);
    }
  }

  method RunCalls(s: Sequence, calls: seq<Call>) returns (r: Result<(), BuildError>)
    requires s.Valid()
    modifies s, s.graph
    ensures s.Valid() && (r.Ok? <==> Play(old(s.State()), calls, |calls|).Some?)
    ensures r.Ok? ==> s.State() == Play(old(s.State()), calls, |calls|).value
  {
    ghost var d := s.State();
    for i := 0 to |calls|
      invariant s.Valid() && Play(d, calls, i) == Some(s.State())
    {
      r := Apply(s, calls[i]);
      if r.Err? {
        PlayStuck(d, calls, i + 1, |calls|);
        return;
      }
    }
    r := Ok(());
  }

  /** A region that validates wherever it is put. */
  ghost predicate Portable(region: Region) {
    forall ctx :: TreeAccepted(region, ctx)
  }

  /** The bodies of the call are portable, and its conditions test the workflow input. */
  ghost predicate PortableCall(call: Call) {
    && (!call.CallCompensate? ==> forall child :: child in ChildRegions(CallNode(call, FromRef(ScopeInput))) ==> Portable(child))
    && (call.CallChoose? ==> forall i :: 0 <= i < |call.cases| ==> InputCondition(call.cases[i].when))
  }

  ghost predicate InputCondition(c: Condition) {
    (exists path, value :: c == EqInput(path, value)) || (exists path :: c == FlagTrue(path))
  }

  lemma PortableCallFits(d: Draft, call: Call, ctx: RegionCtx)
    requires PortableCall(call)
    ensures ConditionsFit(d, call, ctx) && BodiesAccepted(call, ctx)
  {
    if call.CallChoose? {
      forall i | 0 <= i < |call.cases|
        ensures ConditionFits(call.cases[i].when, d.keys, ctx)
      {
        var c := call.cases[i].when;
        assert InputCondition(c);
        if path, value :| c == EqInput(path, value) {
          EqInputFits(path, value, d.keys, ctx);
        } else {
          var path :| c == FlagTrue(path);
          FlagTrueFits(path, d.keys, ctx);
        }
      }
    }
  }

  /** Scripts with portable bodies and input tests yield portable regions, which can be nested or published. */
  lemma ScriptPortable(atRoot: bool, calls: seq<Call>, key: string, ending: Node, inputSchema: SchemaRef, outputSchema: SchemaRef)
    requires Play(Empty(atRoot), calls, |calls|).Some? && forall i :: 0 <= i < |calls| ==> PortableCall(calls[i])
    requires var d := Play(Empty(atRoot), calls, |calls|).value;
             KeyFree(d, key) && (ending == Node.Complete(d.last) || ending.Fail?)
    ensures Portable(Ended(Play(Empty(atRoot), calls, |calls|).value, key, ending, inputSchema, outputSchema))
  {
    forall ctx
      ensures TreeAccepted(Ended(Play(Empty(atRoot), calls, |calls|).value, key, ending, inputSchema, outputSchema), ctx)
    {
      forall j: nat | j < |calls|
        ensures CallFits(atRoot, calls, j, ctx)
      {
        if Play(Empty(atRoot), calls, j).None? {
          PlayStuck(Empty(atRoot), calls, j, |calls|);
        } else {
          PortableCallFits(Play(Empty(atRoot), calls, j).value, calls[j], ctx);
        }
      }
      ScriptValidatesIff(atRoot, calls, key, ending, inputSchema, outputSchema, ctx);
    }
  }

  lemma TimedWaitChildless(region: Region, wait: Key, recover: Key, ctx: RegionCtx)
    requires TimedWaitRegion(region, wait, recover)
    ensures NodesNest(region.nodes, ctx)
  {
    TimedWaitEdges(region, wait, recover);
    forall k | k in region.nodes
      ensures ChildRegions(region.nodes[k]) == []
    {
    }
  }

  /** So is the timed-wait flow. */
  lemma TimedWaitPortable(region: Region, wait: Key, recover: Key)
    requires TimedWaitRegion(region, wait, recover)
    ensures Portable(region)
  {
    forall ctx
      ensures TreeAccepted(region, ctx)
    {
      TimedWaitAccepted(region, wait, recover, ctx);
      TimedWaitChildless(region, wait, recover, ctx);
      TreeByNode(region, ctx);
    }
  }
}
