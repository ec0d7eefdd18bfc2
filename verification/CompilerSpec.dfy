/**
 * Parsed workflow documents, the IR they stand for, and when compilation succeeds.
 * Field syntax, spans, retry policies and attempt timeouts are already resolved here.
 */
module CompilerSpec {
  import opened Prelude
  import opened Bindings
  import opened Ir
  import opened Codecs
  import opened RegionAnalysis

  const MAX_NODES := 512
  const MAX_NESTING := 8
  const MAX_LOOP_ITERATIONS := 1000
  const MAX_FOREACH_CONCURRENCY := 32
  const MAX_PARALLEL_BRANCHES := 16
  const MAX_RUN_TIMEOUT_MS := 365 * 24 * 60 * 60 * 1000

  datatype RegionSpec = RegionSpec(inputSchema: SchemaRef, outputSchema: SchemaRef, start: string, nodes: map<string, NodeSpec>)

  datatype LoopKind = WhileLoop(condition: Condition) | DoWhileLoop(condition: Condition) | RepeatLoop(count: Binding)

  datatype CaseSpec = CaseSpec(name: string, when: Condition, body: RegionSpec)

  datatype BranchSpec = BranchSpec(name: string, input: Binding, body: RegionSpec)

  datatype NodeSpec =
    | ActivitySpec(activity: ActivityKey, input: Binding, compensation: Option<Compensation>, next: string)
    | ChooseSpec(input: Binding, cases: seq<CaseSpec>, default: RegionSpec, next: string)
    | DelaySpec(duration: Binding, next: string)
    | WaitUntilSpec(at: Binding, next: string)
    | WaitSignalSpec(signal: string, key: Binding, timeoutMs: Option<nat>, next: string, onTimeout: Option<string>)
    | CompleteSpec(output: Binding)
    | FailSpec(code: string, message: string)
    | LoopSpec(kind: LoopKind, state: Binding, stateSchema: SchemaRef, maxIterations: nat, body: RegionSpec, next: string)
    | ForeachSpec(items: Binding, itemSchema: SchemaRef, maxItems: nat, maxConcurrency: nat, body: RegionSpec, next: string)
    | ParallelSpec(branches: seq<BranchSpec>, next: string)
    | SagaSpec(input: Binding, body: RegionSpec, next: string)

  /** What the catalog and the workflow header provide to every node. */
  datatype Env = Env(schemas: set<SchemaRef>, activities: map<ActivityKey, EffectKind>, signals: set<string>)

  datatype EffectKind = Pure | External

  // ----- the IR of a document -----

  /** The context the compiler passes to a body of `n`. */
  function BodyCtx(n: NodeSpec, body: RegionSpec, ctx: RegionCtx): RegionCtx {
    var named := ctx.(inputSchema := body.inputSchema, outputSchema := body.outputSchema);
    match n
    case LoopSpec(_, _, _, _, _, _) => named.(inLoop := true)
    case ForeachSpec(_, _, _, _, _, _) => named.(inForeach := true)
    case SagaSpec(_, _, _) => named.(inSaga := true)
    case _ => named
  }

  function CompiledRegion(spec: RegionSpec, path: RegionPath, ctx: RegionCtx): Region
    decreases spec
  {
    Region(path, ctx.inputSchema, ctx.outputSchema, spec.start,
           map k | k in spec.nodes :: CompiledNode(spec.nodes[k], path + [PathSeg.Node(k)], ctx))
  }

  function CompiledNode(n: NodeSpec, path: RegionPath, ctx: RegionCtx): Node
    decreases n
  {
    match n
    case ActivitySpec(activity, input, compensation, next) => Activity(activity, input, compensation, next)
    case ChooseSpec(input, cases, default, next) =>
      Choose(input,
             seq(|cases|, i requires 0 <= i < |cases| => CompiledCase(n, cases[i], path, ctx)),
             CompiledRegion(default, path + [Default], BodyCtx(n, default, ctx)),
             next)
    case DelaySpec(duration, next) => Delay(duration, next)
    case WaitUntilSpec(at, next) => WaitUntil(at, next)
    case WaitSignalSpec(signal, key, timeoutMs, next, onTimeout) => WaitSignal(signal, key, timeoutMs, next, onTimeout)
    case CompleteSpec(output) => Complete(output)
    case FailSpec(code, message) => Fail(code, message)
    case LoopSpec(kind, state, stateSchema, maxIterations, body, next) =>
      CompiledLoop(kind, state, stateSchema, maxIterations,
                   CompiledRegion(body, path + [Body], BodyCtx(n, body, ctx)), next)
    case ForeachSpec(items, itemSchema, maxItems, maxConcurrency, body, next) =>
      Foreach(items, itemSchema, maxItems, maxConcurrency,
              CompiledRegion(body, path + [Body], BodyCtx(n, body, ctx)), next)
    case ParallelSpec(branches, next) =>
      Parallel(seq(|branches|, i requires 0 <= i < |branches| => CompiledBranch(n, branches[i], path, ctx)), next)
    case SagaSpec(input, body, next) =>
      Saga(input, CompiledRegion(body, path + [Body], BodyCtx(n, body, ctx)), next)
  }

  function CompiledLoop(kind: LoopKind, state: Binding, stateSchema: SchemaRef, maxIterations: nat, body: Region, next: Key): Node {
    match kind
    case WhileLoop(condition) => While(state, stateSchema, condition, maxIterations, body, next)
    case DoWhileLoop(condition) => DoWhile(state, stateSchema, condition, maxIterations, body, next)
    case RepeatLoop(count) => Repeat(count, state, stateSchema, maxIterations, body, next)
  }

  function CompiledCase(n: NodeSpec, c: CaseSpec, path: RegionPath, ctx: RegionCtx): ChooseCase
    decreases c
  {
    ChooseCase(c.name, c.when, CompiledRegion(c.body, path + [Case(c.name)], BodyCtx(n, c.body, ctx)))
  }

  function CompiledBranch(n: NodeSpec, b: BranchSpec, path: RegionPath, ctx: RegionCtx): ParallelBranch
    decreases b
  {
    ParallelBranch(b.name, b.input, CompiledRegion(b.body, path + [Branch(b.name)], BodyCtx(n, b.body, ctx)))
  }

  // ----- the bodies of a node, whatever its kind -----

  datatype Placed = Placed(seg: PathSeg, spec: RegionSpec)

  function Bodies(n: NodeSpec): (ps: seq<Placed>)
    ensures forall p :: p in ps ==> p.spec < n
  {
    match n
    case ChooseSpec(_, cases, default, _) =>
      seq(|cases|, i requires 0 <= i < |cases| => Placed(Case(cases[i].name), cases[i].body)) + [Placed(Default, default)]
    case LoopSpec(_, _, _, _, body, _) => [Placed(Body, body)]
    case ForeachSpec(_, _, _, _, body, _) => [Placed(Body, body)]
    case SagaSpec(_, body, _) => [Placed(Body, body)]
    case ParallelSpec(branches, _) =>
      seq(|branches|, i requires 0 <= i < |branches| => Placed(Branch(branches[i].name), branches[i].body))
    case _ => []
  }

  // ----- when compilation succeeds -----

  predicate IsForward(r: Reference) {
    r.ForwardInput? || r.ForwardOutput?
  }

  predicate CompensationCompiles(env: Env, activity: ActivityKey, compensation: Option<Compensation>, inSaga: bool) {
    activity in env.activities &&
    match compensation
    case None => !(inSaga && env.activities[activity] == External)
    case Some(Irreversible(_)) => inSaga
    case Some(CompensateWith(handler, input)) =>
      inSaga && handler in env.activities && forall r :: r in References(input) ==> IsForward(r)
  }

  predicate DistinctNames(names: seq<string>) {
    && (forall i :: 0 <= i < |names| ==> ValidAsciiName(names[i]))
    && forall i, j :: 0 <= i < j < |names| ==> names[i] != names[j]
  }

  predicate SchemasKnown(env: Env, body: RegionSpec) {
    body.inputSchema in env.schemas && body.outputSchema in env.schemas
  }

  function CaseNames(cases: seq<CaseSpec>): seq<string> {
    seq(|cases|, i requires 0 <= i < |cases| => cases[i].name)
  }

  function BranchNames(branches: seq<BranchSpec>): seq<string> {
    seq(|branches|, i requires 0 <= i < |branches| => branches[i].name)
  }

  predicate HasNext(n: NodeSpec) {
    !n.CompleteSpec? && !n.FailSpec?
  }

  /** Everything demanded of a node besides its bodies. */
  predicate NodeFieldsCompile(env: Env, n: NodeSpec, ctx: RegionCtx) {
    && (HasNext(n) ==> ValidNodeKey(n.next))
    && match n
       case ActivitySpec(activity, _, compensation, _) => CompensationCompiles(env, activity, compensation, ctx.inSaga)
       case WaitSignalSpec(signal, _, timeoutMs, _, onTimeout) =>
         && signal in env.signals && timeoutMs.Some? == onTimeout.Some?
         && (onTimeout.Some? ==> ValidNodeKey(onTimeout.value))
       case LoopSpec(_, _, stateSchema, maxIterations, body, _) =>
         && stateSchema in env.schemas && 1 <= maxIterations <= MAX_LOOP_ITERATIONS
         && body.inputSchema == stateSchema && body.outputSchema == stateSchema
       case ForeachSpec(_, itemSchema, maxItems, maxConcurrency, body, _) =>
         && itemSchema in env.schemas && 1 <= maxItems <= MAX_LOOP_ITERATIONS
         && 1 <= maxConcurrency <= MAX_FOREACH_CONCURRENCY
         && body.inputSchema == itemSchema && body.outputSchema in env.schemas
       case ParallelSpec(branches, _) =>
         && 1 <= |branches| <= MAX_PARALLEL_BRANCHES && DistinctNames(BranchNames(branches))
         && forall i :: 0 <= i < |branches| ==> SchemasKnown(env, branches[i].body)
       case ChooseSpec(_, cases, default, _) =>
         && cases != [] && DistinctNames(CaseNames(cases))
         && (forall i :: 0 <= i < |cases| ==>
              SchemasKnown(env, cases[i].body) && cases[i].body.outputSchema == default.outputSchema)
       case SagaSpec(_, body, _) => SchemasKnown(env, body)
       case _ => true
  }

  ghost predicate BodyCompiles(env: Env, n: NodeSpec, p: Placed, path: RegionPath, ctx: RegionCtx, depth: nat)
    decreases p.spec, 1
  {
    RegionCompiles(env, p.spec, path + [p.seg], BodyCtx(n, p.spec, ctx), depth + 1)
  }

  ghost predicate NodeCompiles(env: Env, n: NodeSpec, path: RegionPath, ctx: RegionCtx, depth: nat)
    decreases n
  {
    && NodeFieldsCompile(env, n, ctx)
    && forall p :: p in Bodies(n) ==> BodyCompiles(env, n, p, path, ctx, depth)
  }

  ghost predicate RegionCompiles(env: Env, spec: RegionSpec, path: RegionPath, ctx: RegionCtx, depth: nat)
    decreases spec, 0
  {
    && depth <= MAX_NESTING
    && ValidNodeKey(spec.start)
    && (forall k :: k in spec.nodes ==>
          ValidNodeKey(k) && NodeCompiles(env, spec.nodes[k], path + [PathSeg.Node(k)], ctx, depth))
    && spec.start in spec.nodes
    && Accepted(CompiledRegion(spec, path, ctx), ctx)
  }

  // ----- counting nodes over a whole tree -----

  /** Nodes of `region` under the given keys, with everything nested in them. */
  ghost function KeysTotal(region: Region, keys: set<Key>): nat
    requires keys <= region.nodes.Keys
    decreases region, |keys|
  {
    if keys == {} then
      0
    else
      var k :| k in keys;
      1 + ChildrenTotal(region.nodes[k], 0) + KeysTotal(region, keys - {k})
  }

  /** Nodes nested in `node`, from its `i`th body on. */
  ghost function ChildrenTotal(node: Node, i: nat): nat
    requires i <= |ChildRegions(node)|
    decreases node, |ChildRegions(node)| - i
  {
    if i == |ChildRegions(node)| then 0 else NodeTotal(ChildRegions(node)[i]) + ChildrenTotal(node, i + 1)
  }

  ghost function NodeTotal(region: Region): nat
    decreases region, |region.nodes.Keys| + 1
  {
    KeysTotal(region, region.nodes.Keys)
  }

  lemma {:induction false} KeysTotalRemove(region: Region, keys: set<Key>, k: Key)
    requires keys <= region.nodes.Keys && k in keys
    ensures KeysTotal(region, keys) == 1 + ChildrenTotal(region.nodes[k], 0) + KeysTotal(region, keys - {k})
    decreases |keys|
  {
    var c :| c in keys && KeysTotal(region, keys) == 1 + ChildrenTotal(region.nodes[c], 0) + KeysTotal(region, keys - {c});
    if c != k {
      KeysTotalRemove(region, keys - {c}, k);
      KeysTotalRemove(region, keys - {k}, c);
      assert keys - {c} - {k} == keys - {k} - {c};
    }
  }
}
