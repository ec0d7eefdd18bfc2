/** The recursive compiler: checks, region building and the node counter threaded through it. */
module Compiler {
  import opened Prelude
  import opened Bindings
  import opened Ir
  import opened Codecs
  import opened RegionAnalysis
  import opened Validation
  import opened CompilerSpec
  import opened Decompiler

  datatype CompileError =
    | NestingTooDeep
    | InvalidKey(raw: string)
    | InvalidNode(key: string)
    | MissingStart(start: string)
    | Rejected(cause: AnalysisError)
    | InvalidHeader
    | TooManyNodes
    | NotDigestible

  // ----- fields -----

  method CheckNames(raw: seq<string>) returns (ok: bool)
    ensures ok <==> DistinctNames(raw)
  {
    var names: set<string> := {};
    for i := 0 to |raw|
      invariant DistinctNames(raw[..i])
      invariant forall s :: s in names <==> s in raw[..i]
    {
      if !ValidAsciiName(raw[i]) || raw[i] in names {
        return false;
      }
      names := names + {raw[i]};
    }
    assert raw[..|raw|] == raw;
    ok := true;
  }

  method CheckBodySchemas(env: Env, bodies: seq<RegionSpec>) returns (ok: bool)
    ensures ok <==> forall i :: 0 <= i < |bodies| ==> SchemasKnown(env, bodies[i])
  {
    for i := 0 to |bodies|
      invariant forall j :: 0 <= j < i ==> SchemasKnown(env, bodies[j])
    {
      if !SchemasKnown(env, bodies[i]) {
        return false;
      }
    }
    ok := true;
  }

  /** The output schema shared by all cases: the first case fixes it. */
  method SharedOutput(cases: seq<CaseSpec>) returns (shared: Option<SchemaRef>)
    ensures shared.Some? <==> cases != [] && forall i :: 0 <= i < |cases| ==> cases[i].body.outputSchema == cases[0].body.outputSchema
    ensures shared.Some? ==> shared.value == cases[0].body.outputSchema
  {
    shared := None;
    for i := 0 to |cases|
      invariant shared.Some? <==> i > 0
      invariant shared.Some? ==> forall j :: 0 <= j < i ==> cases[j].body.outputSchema == shared.value
    {
      if shared.Some? && shared.value != cases[i].body.outputSchema {
        return None;
      }
      shared := Some(cases[i].body.outputSchema);
    }
  }

  method CheckCompensation(env: Env, activity: ActivityKey, compensation: Option<Compensation>, inSaga: bool) returns (ok: bool)
    ensures ok <==> CompensationCompiles(env, activity, compensation, inSaga)
  {
    if activity !in env.activities {
      return false;
    }
    if compensation.None? {
      return !(inSaga && env.activities[activity] == External);
    }
    if !inSaga {
      return false;
    }
    if compensation.value.Irreversible? {
      return true;
    }
    if compensation.value.activity !in env.activities {
      return false;
    }
    var references := References(compensation.value.input);
    for i := 0 to |references|
      invariant forall j :: 0 <= j < i ==> IsForward(references[j])
    {
      if !IsForward(references[i]) {
        return false;
      }
    }
    ok := true;
  }

  method CheckChoose(env: Env, n: NodeSpec, ctx: RegionCtx) returns (ok: bool)
    requires n.ChooseSpec?
    ensures ok <==> NodeFieldsCompile(env, n, ctx)
  {
    var bodies := seq(|n.cases|, i requires 0 <= i < |n.cases| => n.cases[i].body);
    var named := CheckNames(CaseNames(n.cases));
    var known := CheckBodySchemas(env, bodies);
    var shared := SharedOutput(n.cases);
    assert known <==> forall i :: 0 <= i < |n.cases| ==> SchemasKnown(env, n.cases[i].body) by {
      assert forall i :: 0 <= i < |n.cases| ==> bodies[i] == n.cases[i].body;
    }
    ok := ValidNodeKey(n.next) && named && known && shared == Some(n.default.outputSchema);
  }

  method CheckParallel(env: Env, n: NodeSpec, ctx: RegionCtx) returns (ok: bool)
    requires n.ParallelSpec?
    ensures ok <==> NodeFieldsCompile(env, n, ctx)
  {
    var bodies := seq(|n.branches|, i requires 0 <= i < |n.branches| => n.branches[i].body);
    var named := CheckNames(BranchNames(n.branches));
    var known := CheckBodySchemas(env, bodies);
    assert known <==> forall i :: 0 <= i < |n.branches| ==> SchemasKnown(env, n.branches[i].body) by {
      assert forall i :: 0 <= i < |n.branches| ==> bodies[i] == n.branches[i].body;
    }
    ok := ValidNodeKey(n.next) && 1 <= |n.branches| <= MAX_PARALLEL_BRANCHES && named && known;
  }

  method CheckWait(env: Env, n: NodeSpec, ctx: RegionCtx) returns (ok: bool)
    requires n.WaitSignalSpec?
    ensures ok <==> NodeFieldsCompile(env, n, ctx)
  {
    if n.signal !in env.signals {
      return false;
    }
    if n.onTimeout.Some? && !ValidNodeKey(n.onTimeout.value) {
      return false;
    }
    if n.timeoutMs.Some? && n.onTimeout.None? {
      return false;
    }
    if n.timeoutMs.None? && n.onTimeout.Some? {
      return false;
    }
    ok := ValidNodeKey(n.next);
  }

  method CheckLoop(env: Env, n: NodeSpec, ctx: RegionCtx) returns (ok: bool)
    requires n.LoopSpec?
    ensures ok <==> NodeFieldsCompile(env, n, ctx)
  {
    if n.stateSchema !in env.schemas {
      return false;
    }
    if n.maxIterations == 0 || n.maxIterations > MAX_LOOP_ITERATIONS {
      return false;
    }
    if n.body.inputSchema != n.stateSchema || n.body.outputSchema != n.stateSchema {
      return false;
    }
    ok := ValidNodeKey(n.next);
  }

  method CheckForeach(env: Env, n: NodeSpec, ctx: RegionCtx) returns (ok: bool)
    requires n.ForeachSpec?
    ensures ok <==> NodeFieldsCompile(env, n, ctx)
  {
    if n.itemSchema !in env.schemas {
      return false;
    }
    if n.maxItems == 0 || n.maxItems > MAX_LOOP_ITERATIONS {
      return false;
    }
    if n.maxConcurrency == 0 || n.maxConcurrency > MAX_FOREACH_CONCURRENCY {
      return false;
    }
    if n.body.inputSchema != n.itemSchema || n.body.outputSchema !in env.schemas {
      return false;
    }
    ok := ValidNodeKey(n.next);
  }

  method CheckFields(env: Env, n: NodeSpec, ctx: RegionCtx) returns (ok: bool)
    ensures ok <==> NodeFieldsCompile(env, n, ctx)
  {
    match n {
      case ChooseSpec(_, _, _, _) => ok := CheckChoose(env, n, ctx);
      case ParallelSpec(_, _) => ok := CheckParallel(env, n, ctx);
      case WaitSignalSpec(_, _, _, _, _) => ok := CheckWait(env, n, ctx);
      case LoopSpec(_, _, _, _, _, _) => ok := CheckLoop(env, n, ctx);
      case ForeachSpec(_, _, _, _, _, _) => ok := CheckForeach(env, n, ctx);
      case ActivitySpec(activity, _, compensation, next) =>
        ok := CheckCompensation(env, activity, compensation, ctx.inSaga);
        ok := ok && ValidNodeKey(next);
      case SagaSpec(_, body, next) => ok := SchemasKnown(env, body) && ValidNodeKey(next);
      case DelaySpec(_, next) => ok := ValidNodeKey(next);
      case WaitUntilSpec(_, next) => ok := ValidNodeKey(next);
      case CompleteSpec(_) => ok := true;
      case FailSpec(_, _) => ok := true;
    }
  }

  // ----- nodes -----

  /** The node of `n` around its already compiled bodies. */
  function Assemble(n: NodeSpec, bodies: seq<Region>): Node
    requires |bodies| == |Bodies(n)|
  {
    match n
    case ActivitySpec(activity, input, compensation, next) => Activity(activity, input, compensation, next)
    case ChooseSpec(input, cases, _, next) =>
      Choose(input, seq(|cases|, i requires 0 <= i < |cases| => ChooseCase(cases[i].name, cases[i].when, bodies[i])),
             bodies[|cases|], next)
    case DelaySpec(duration, next) => Delay(duration, next)
    case WaitUntilSpec(at, next) => WaitUntil(at, next)
    case WaitSignalSpec(signal, key, timeoutMs, next, onTimeout) => WaitSignal(signal, key, timeoutMs, next, onTimeout)
    case CompleteSpec(output) => Complete(output)
    case FailSpec(code, message) => Fail(code, message)
    case LoopSpec(kind, state, stateSchema, maxIterations, _, next) =>
      CompiledLoop(kind, state, stateSchema, maxIterations, bodies[0], next)
    case ForeachSpec(items, itemSchema, maxItems, maxConcurrency, _, next) =>
      Foreach(items, itemSchema, maxItems, maxConcurrency, bodies[0], next)
    case ParallelSpec(branches, next) =>
      Parallel(seq(|branches|, i requires 0 <= i < |branches| => ParallelBranch(branches[i].name, branches[i].input, bodies[i])), next)
    case SagaSpec(input, _, next) => Saga(input, bodies[0], next)
  }

  function CompiledBody(n: NodeSpec, p: Placed, path: RegionPath, ctx: RegionCtx): Region {
    CompiledRegion(p.spec, path + [p.seg], BodyCtx(n, p.spec, ctx))
  }

  /** The nested regions of a compiled node are its compiled bodies, in order. */
  lemma CompiledChildren(n: NodeSpec, path: RegionPath, ctx: RegionCtx)
    ensures |ChildRegions(CompiledNode(n, path, ctx))| == |Bodies(n)|
    ensures forall i :: 0 <= i < |Bodies(n)| ==>
              ChildRegions(CompiledNode(n, path, ctx))[i] == CompiledBody(n, Bodies(n)[i], path, ctx)
  {
  }

  lemma AssembleCompiled(n: NodeSpec, path: RegionPath, ctx: RegionCtx, bodies: seq<Region>)
    requires |bodies| == |Bodies(n)|
    requires forall i :: 0 <= i < |bodies| ==> bodies[i] == CompiledBody(n, Bodies(n)[i], path, ctx)
    ensures Assemble(n, bodies) == CompiledNode(n, path, ctx)
  {
  }

  ghost predicate PlacedCompile(env: Env, n: NodeSpec, ps: seq<Placed>, path: RegionPath, ctx: RegionCtx, depth: nat) {
    forall p :: p in ps ==> BodyCompiles(env, n, p, path, ctx, depth)
  }

  ghost predicate BodiesMatch(n: NodeSpec, ps: seq<Placed>, path: RegionPath, ctx: RegionCtx, bodies: seq<Region>) {
    |bodies| == |ps| && forall i :: 0 <= i < |bodies| ==> bodies[i] == CompiledBody(n, ps[i], path, ctx)
  }

  /** The first `i` bodies compile, to `bodies`. */
  ghost predicate CompiledTo(env: Env, n: NodeSpec, path: RegionPath, ctx: RegionCtx, depth: nat, i: nat, bodies: seq<Region>) {
    && i == |bodies| <= |Bodies(n)|
    && forall j :: 0 <= j < i ==>
         BodyCompiles(env, n, Bodies(n)[j], path, ctx, depth) && bodies[j] == CompiledBody(n, Bodies(n)[j], path, ctx)
  }

  lemma CompiledToAll(env: Env, n: NodeSpec, path: RegionPath, ctx: RegionCtx, depth: nat, bodies: seq<Region>)
    requires CompiledTo(env, n, path, ctx, depth, |Bodies(n)|, bodies)
    ensures PlacedCompile(env, n, Bodies(n), path, ctx, depth) && BodiesMatch(n, Bodies(n), path, ctx, bodies)
  {
  }

  lemma OneFails(env: Env, n: NodeSpec, path: RegionPath, ctx: RegionCtx, depth: nat, i: nat)
    requires i < |Bodies(n)| && !BodyCompiles(env, n, Bodies(n)[i], path, ctx, depth)
    ensures !PlacedCompile(env, n, Bodies(n), path, ctx, depth)
  {
    assert Bodies(n)[i] in Bodies(n);
  }

  lemma ChildrenTotalStep(n: NodeSpec, path: RegionPath, ctx: RegionCtx, i: nat)
    requires i < |Bodies(n)|
    ensures i < |ChildRegions(CompiledNode(n, path, ctx))|
    ensures ChildrenTotal(CompiledNode(n, path, ctx), i) ==
            NodeTotal(CompiledBody(n, Bodies(n)[i], path, ctx)) + ChildrenTotal(CompiledNode(n, path, ctx), i + 1)
  {
    CompiledChildren(n, path, ctx);
  }

  lemma CompiledToStep(env: Env, n: NodeSpec, path: RegionPath, ctx: RegionCtx, depth: nat, i: nat, bodies: seq<Region>, body: Region)
    requires CompiledTo(env, n, path, ctx, depth, i, bodies) && i < |Bodies(n)|
    requires BodyCompiles(env, n, Bodies(n)[i], path, ctx, depth) && body == CompiledBody(n, Bodies(n)[i], path, ctx)
    ensures CompiledTo(env, n, path, ctx, depth, i + 1, bodies + [body])
  {
  }

  ghost function TotalFrom(n: NodeSpec, path: RegionPath, ctx: RegionCtx, i: nat): nat
    requires i <= |Bodies(n)|
  {
    CompiledChildren(n, path, ctx);
    ChildrenTotal(CompiledNode(n, path, ctx), i)
  }

  lemma TotalFromEnd(n: NodeSpec, path: RegionPath, ctx: RegionCtx)
    ensures TotalFrom(n, path, ctx, |Bodies(n)|) == 0
  {
    CompiledChildren(n, path, ctx);
  }

  method CompileBody(env: Env, n: NodeSpec, i: nat, path: RegionPath, ctx: RegionCtx, depth: nat, counts: nat)
    returns (r: Result<Region, CompileError>, counts': nat)
    requires i < |Bodies(n)|
    ensures r.Ok? <==> BodyCompiles(env, n, Bodies(n)[i], path, ctx, depth)
    ensures r.Ok? ==> r.value == CompiledBody(n, Bodies(n)[i], path, ctx)
    ensures r.Ok? ==> counts' + TotalFrom(n, path, ctx, i + 1) == counts + TotalFrom(n, path, ctx, i)
    decreases Bodies(n)[i].spec, 2
  {
    ChildrenTotalStep(n, path, ctx, i);
    var p := Bodies(n)[i];
    r, counts' := CompileRegion(env, p.spec, path + [p.seg], BodyCtx(n, p.spec, ctx), depth + 1, counts);
  }

  method CompileBodies(env: Env, n: NodeSpec, path: RegionPath, ctx: RegionCtx, depth: nat, counts: nat)
    returns (r: Result<seq<Region>, CompileError>, counts': nat)
    ensures r.Ok? <==> PlacedCompile(env, n, Bodies(n), path, ctx, depth)
    ensures r.Ok? ==> BodiesMatch(n, Bodies(n), path, ctx, r.value)
    ensures r.Ok? ==> counts' == counts + TotalFrom(n, path, ctx, 0)
    decreases n, 0
  {
    counts' := counts;
    var bodies: seq<Region> := [];
    for i := 0 to |Bodies(n)|
      invariant CompiledTo(env, n, path, ctx, depth, i, bodies)
      invariant counts' + TotalFrom(n, path, ctx, i) == counts + TotalFrom(n, path, ctx, 0)
    {
      assert Bodies(n)[i] in Bodies(n);
      var body;
      body, counts' := CompileBody(env, n, i, path, ctx, depth, counts');
      if body.Err? {
        OneFails(env, n, path, ctx, depth, i);
        return Err(body.error), counts';
      }
      CompiledToStep(env, n, path, ctx, depth, i, bodies, body.value);
      bodies := bodies + [body.value];
    }
    TotalFromEnd(n, path, ctx);
    CompiledToAll(env, n, path, ctx, depth, bodies);
    r := Ok(bodies);
  }

  method CompileNode(env: Env, key: string, n: NodeSpec, path: RegionPath, ctx: RegionCtx, depth: nat, counts: nat)
    returns (r: Result<Node, CompileError>, counts': nat)
    ensures r.Ok? <==> NodeCompiles(env, n, path, ctx, depth)
    ensures r.Ok? ==> r.value == CompiledNode(n, path, ctx) && counts' == counts + ChildrenTotal(r.value, 0)
    decreases n, 1
  {
    var ok := CheckFields(env, n, ctx);
    if !ok {
      return Err(InvalidNode(key)), counts;
    }
    var bodies;
    bodies, counts' := CompileBodies(env, n, path, ctx, depth, counts);
    if bodies.Err? {
      return Err(bodies.error), counts';
    }
    AssembleCompiled(n, path, ctx, bodies.value);
    r := Ok(Assemble(n, bodies.value));
  }

  // ----- regions -----

  ghost predicate KeysCompile(env: Env, spec: RegionSpec, keys: set<Key>, path: RegionPath, ctx: RegionCtx, depth: nat)
    requires keys <= spec.nodes.Keys
  {
    forall k :: k in keys ==> ValidNodeKey(k) && NodeCompiles(env, spec.nodes[k], path + [PathSeg.Node(k)], ctx, depth)
  }

  lemma KeysAdd(env: Env, spec: RegionSpec, keys: set<Key>, key: Key, path: RegionPath, ctx: RegionCtx, depth: nat)
    requires keys <= spec.nodes.Keys && key in spec.nodes
    ensures KeysCompile(env, spec, keys + {key}, path, ctx, depth) <==>
            && KeysCompile(env, spec, keys, path, ctx, depth)
            && ValidNodeKey(key) && NodeCompiles(env, spec.nodes[key], path + [PathSeg.Node(key)], ctx, depth)
  {
  }

  ghost predicate Submap(nodes: map<Key, Node>, full: map<Key, Node>) {
    nodes.Keys <= full.Keys && forall k :: k in nodes ==> nodes[k] == full[k]
  }

  /** The keys outside `rest` compile, to `nodes`. */
  ghost predicate NodesTo(env: Env, spec: RegionSpec, path: RegionPath, ctx: RegionCtx, depth: nat, rest: set<Key>, nodes: map<Key, Node>) {
    && rest <= spec.nodes.Keys && nodes.Keys == spec.nodes.Keys - rest
    && Submap(nodes, CompiledRegion(spec, path, ctx).nodes)
    && KeysCompile(env, spec, nodes.Keys, path, ctx, depth)
  }

  lemma NodesToStep(env: Env, spec: RegionSpec, path: RegionPath, ctx: RegionCtx, depth: nat, rest: set<Key>, nodes: map<Key, Node>, key: Key, node: Node)
    requires NodesTo(env, spec, path, ctx, depth, rest, nodes) && key in rest && ValidNodeKey(key)
    requires NodeCompiles(env, spec.nodes[key], path + [PathSeg.Node(key)], ctx, depth)
    requires node == CompiledNode(spec.nodes[key], path + [PathSeg.Node(key)], ctx)
    ensures NodesTo(env, spec, path, ctx, depth, rest - {key}, nodes[key := node])
  {
    assert nodes[key := node].Keys == nodes.Keys + {key};
    KeysAdd(env, spec, nodes.Keys, key, path, ctx, depth);
  }

  lemma NodesToAll(env: Env, spec: RegionSpec, path: RegionPath, ctx: RegionCtx, depth: nat, nodes: map<Key, Node>)
    requires NodesTo(env, spec, path, ctx, depth, {}, nodes)
    ensures KeysCompile(env, spec, spec.nodes.Keys, path, ctx, depth) && nodes == CompiledRegion(spec, path, ctx).nodes
  {
    assert nodes.Keys == CompiledRegion(spec, path, ctx).nodes.Keys;
  }

  lemma KeyFails(env: Env, spec: RegionSpec, path: RegionPath, ctx: RegionCtx, depth: nat, key: Key)
    requires key in spec.nodes
    requires !ValidNodeKey(key) || !NodeCompiles(env, spec.nodes[key], path + [PathSeg.Node(key)], ctx, depth)
    ensures !KeysCompile(env, spec, spec.nodes.Keys, path, ctx, depth)
  {
  }

  ghost function TotalOver(spec: RegionSpec, path: RegionPath, ctx: RegionCtx, keys: set<Key>): nat
    requires keys <= spec.nodes.Keys
  {
    assert CompiledRegion(spec, path, ctx).nodes.Keys == spec.nodes.Keys;
    KeysTotal(CompiledRegion(spec, path, ctx), keys)
  }

  lemma TotalOverRemove(spec: RegionSpec, path: RegionPath, ctx: RegionCtx, keys: set<Key>, key: Key)
    requires keys <= spec.nodes.Keys && key in keys
    ensures TotalOver(spec, path, ctx, keys) ==
            1 + ChildrenTotal(CompiledNode(spec.nodes[key], path + [PathSeg.Node(key)], ctx), 0) + TotalOver(spec, path, ctx, keys - {key})
  {
    KeysTotalRemove(CompiledRegion(spec, path, ctx), keys, key);
  }

  method CompileNodes(env: Env, spec: RegionSpec, path: RegionPath, ctx: RegionCtx, depth: nat, counts: nat)
    returns (r: Result<map<Key, Node>, CompileError>, counts': nat)
    ensures r.Ok? <==> KeysCompile(env, spec, spec.nodes.Keys, path, ctx, depth)
    ensures r.Ok? ==> r.value == CompiledRegion(spec, path, ctx).nodes
    ensures r.Ok? ==> counts' == counts + TotalOver(spec, path, ctx, spec.nodes.Keys)
    decreases spec, 0
  {
    counts' := counts;
    var nodes: map<Key, Node> := map[];
    var rest := spec.nodes.Keys;
    while rest != {}
      invariant rest <= spec.nodes.Keys && NodesTo(env, spec, path, ctx, depth, rest, nodes)
      invariant counts' + TotalOver(spec, path, ctx, rest) == counts + TotalOver(spec, path, ctx, spec.nodes.Keys)
      decreases spec, 0, rest
    {
      var key :| key in rest;
      if !ValidNodeKey(key) {
        KeyFails(env, spec, path, ctx, depth, key);
        return Err(InvalidKey(key)), counts';
      }
      TotalOverRemove(spec, path, ctx, rest, key);
      var node;
      node, counts' := CompileNode(env, key, spec.nodes[key], path + [PathSeg.Node(key)], ctx, depth, counts' + 1);
      if node.Err? {
        KeyFails(env, spec, path, ctx, depth, key);
        return Err(node.error), counts';
      }
      NodesToStep(env, spec, path, ctx, depth, rest, nodes, key, node.value);
      nodes := nodes[key := node.value];
      rest := rest - {key};
    }
    NodesToAll(env, spec, path, ctx, depth, nodes);
    r := Ok(nodes);
  }

  /** Builds the region around its nodes and analyzes it. */
  method FinishRegion(spec: RegionSpec, path: RegionPath, ctx: RegionCtx, nodes: map<Key, Node>)
    returns (r: Result<Region, CompileError>)
    requires nodes == CompiledRegion(spec, path, ctx).nodes
    ensures r.Ok? <==> spec.start in spec.nodes && Accepted(CompiledRegion(spec, path, ctx), ctx)
    ensures r.Ok? ==> r.value == CompiledRegion(spec, path, ctx)
  {
    if spec.start !in nodes {
      return Err(MissingStart(spec.start));
    }
    var region := Region(path, ctx.inputSchema, ctx.outputSchema, spec.start, nodes);
    var analysis := AnalyzeRegion(region, ctx);
    r := if analysis.Err? then Err(Rejected(analysis.error)) else Ok(region);
  }

  lemma RegionCompilesIff(env: Env, spec: RegionSpec, path: RegionPath, ctx: RegionCtx, depth: nat)
    ensures RegionCompiles(env, spec, path, ctx, depth) <==>
            && depth <= MAX_NESTING && ValidNodeKey(spec.start) && KeysCompile(env, spec, spec.nodes.Keys, path, ctx, depth)
            && spec.start in spec.nodes && Accepted(CompiledRegion(spec, path, ctx), ctx)
    ensures NodeTotal(CompiledRegion(spec, path, ctx)) == TotalOver(spec, path, ctx, spec.nodes.Keys)
  {
    assert CompiledRegion(spec, path, ctx).nodes.Keys == spec.nodes.Keys;
  }

  method CompileRegion(env: Env, spec: RegionSpec, path: RegionPath, ctx: RegionCtx, depth: nat, counts: nat)
    returns (r: Result<Region, CompileError>, counts': nat)
    ensures r.Ok? <==> RegionCompiles(env, spec, path, ctx, depth)
    ensures r.Ok? ==> r.value == CompiledRegion(spec, path, ctx) && counts' == counts + NodeTotal(r.value)
    decreases spec, 1
  {
    RegionCompilesIff(env, spec, path, ctx, depth);
    if depth > MAX_NESTING {
      return Err(NestingTooDeep), counts;
    }
    if !ValidNodeKey(spec.start) {
      return Err(InvalidKey(spec.start)), counts;
    }
    var nodes;
    nodes, counts' := CompileNodes(env, spec, path, ctx, depth, counts);
    if nodes.Err? {
      return Err(nodes.error), counts';
    }
    r := FinishRegion(spec, path, ctx, nodes.value);
  }

  // ----- definitions -----

  datatype WorkflowSpec = WorkflowSpec(
    id: string, version: nat, runTimeoutMs: Option<nat>, signals: map<string, SchemaRef>, root: RegionSpec)

  predicate HeaderCompiles(env: Env, w: WorkflowSpec) {
    && ValidAsciiName(w.id) && w.version > 0
    && SchemasKnown(env, w.root)
    && (w.runTimeoutMs.Some? ==> w.runTimeoutMs.value <= MAX_RUN_TIMEOUT_MS)
    && forall s :: s in w.signals ==> ValidAsciiName(s) && w.signals[s] in env.schemas
  }

  function RootRegionCtx(w: WorkflowSpec): RegionCtx {
    RootCtx(w.root.inputSchema, w.root.outputSchema)
  }

  function CompiledDefinition(w: WorkflowSpec): Definition {
    Definition(w.id, w.version, w.root.inputSchema, w.root.outputSchema, w.signals, w.runTimeoutMs,
               CompiledRegion(w.root, [Root], RootRegionCtx(w)))
  }

  /** The document that a definition stands for. */
  function WorkflowOf(d: Definition): WorkflowSpec {
    WorkflowSpec(d.id, d.version, d.runTimeoutMs, d.signals, SourceRegion(d.root))
  }

  lemma DefinitionGivesBack(w: WorkflowSpec)
    ensures WorkflowOf(CompiledDefinition(w)) == w
  {
    RegionGivesBack(w.root, [Root], RootRegionCtx(w));
  }

  ghost predicate DefinitionCompiles(env: Env, w: WorkflowSpec) {
    && HeaderCompiles(env, w)
    && RegionCompiles(env.(signals := w.signals.Keys), w.root, [Root], RootRegionCtx(w), 1)
    && NodeTotal(CompiledDefinition(w).root) <= MAX_NODES
  }

  /** Compiles exactly the documents that the rules admit and whose canonical text can be hashed. */
  method CompileDefinition(env: Env, w: WorkflowSpec, text: Definition -> Option<nat>) returns (r: Result<Definition, CompileError>)
    ensures r.Ok? <==> DefinitionCompiles(env, w) && Digestible(text, CompiledDefinition(w))
    ensures r.Ok? ==> r.value == CompiledDefinition(w) && WorkflowOf(r.value) == w
  {
    DefinitionGivesBack(w);
    if !HeaderCompiles(env, w) {
      return Err(InvalidHeader);
    }
    var root, counts := CompileRegion(env.(signals := w.signals.Keys), w.root, [Root], RootRegionCtx(w), 1, 0);
    if root.Err? {
      return Err(root.error);
    }
    if counts > MAX_NODES {
      return Err(TooManyNodes);
    }
    var definition := Definition(w.id, w.version, w.root.inputSchema, w.root.outputSchema, w.signals, w.runTimeoutMs, root.value);
    if !Digestible(text, definition) {
      return Err(NotDigestible);
    }
    r := Ok(definition);
  }
}
