/** The document that a compiled region stands for, read off its nodes. */
module Decompiler {
  import opened Prelude
  import opened Ir
  import opened RegionAnalysis
  import opened CompilerSpec

  function SourceRegion(region: Region): RegionSpec
    decreases region
  {
    RegionSpec(region.inputSchema, region.outputSchema, region.start, map k | k in region.nodes :: SourceNode(region.nodes[k]))
  }

  function SourceNode(node: Node): NodeSpec
    decreases node
  {
    match node
    case Activity(activity, input, compensation, next) => ActivitySpec(activity, input, compensation, next)
    case Choose(input, cases, default, next) =>
      ChooseSpec(input, seq(|cases|, i requires 0 <= i < |cases| => SourceCase(cases[i])), SourceRegion(default), next)
    case Delay(duration, next) => DelaySpec(duration, next)
    case WaitUntil(at, next) => WaitUntilSpec(at, next)
    case WaitSignal(signal, key, timeoutMs, next, onTimeout) => WaitSignalSpec(signal, key, timeoutMs, next, onTimeout)
    case Complete(output) => CompleteSpec(output)
    case Fail(code, message) => FailSpec(code, message)
    case While(state, schema, condition, max, body, next) =>
      LoopSpec(WhileLoop(condition), state, schema, max, SourceRegion(body), next)
    case DoWhile(state, schema, condition, max, body, next) =>
      LoopSpec(DoWhileLoop(condition), state, schema, max, SourceRegion(body), next)
    case Repeat(count, state, schema, max, body, next) =>
      LoopSpec(RepeatLoop(count), state, schema, max, SourceRegion(body), next)
    case Foreach(items, schema, max, concurrency, body, next) =>
      ForeachSpec(items, schema, max, concurrency, SourceRegion(body), next)
    case Parallel(branches, next) =>
      ParallelSpec(seq(|branches|, i requires 0 <= i < |branches| => SourceBranch(branches[i])), next)
    case Saga(input, body, next) => SagaSpec(input, SourceRegion(body), next)
  }

  function SourceCase(c: ChooseCase): CaseSpec
    decreases c
  {
    CaseSpec(c.name, c.when, SourceRegion(c.body))
  }

  function SourceBranch(b: ParallelBranch): BranchSpec
    decreases b
  {
    BranchSpec(b.name, b.input, SourceRegion(b.body))
  }

  /** The body was compiled in a context with its own schemas, so the region gives it back. */
  ghost predicate GivesBack(body: RegionSpec, path: RegionPath, ctx: RegionCtx) {
    SourceRegion(CompiledRegion(body, path, ctx)) == body
  }

  ghost predicate BodiesGiveBack(n: NodeSpec, path: RegionPath, ctx: RegionCtx) {
    forall p :: p in Bodies(n) ==> GivesBack(p.spec, path + [p.seg], BodyCtx(n, p.spec, ctx))
  }

  lemma ChooseGivesBack(n: NodeSpec, path: RegionPath, ctx: RegionCtx)
    requires n.ChooseSpec? && BodiesGiveBack(n, path, ctx)
    ensures SourceNode(CompiledNode(n, path, ctx)) == n
  {
    forall i | 0 <= i < |n.cases|
      ensures SourceCase(CompiledCase(n, n.cases[i], path, ctx)) == n.cases[i]
    {
      assert Bodies(n)[i] == Placed(Case(n.cases[i].name), n.cases[i].body);
    }
    assert Bodies(n)[|n.cases|] == Placed(Default, n.default);
  }

  lemma ParallelGivesBack(n: NodeSpec, path: RegionPath, ctx: RegionCtx)
    requires n.ParallelSpec? && BodiesGiveBack(n, path, ctx)
    ensures SourceNode(CompiledNode(n, path, ctx)) == n
  {
    forall i | 0 <= i < |n.branches|
      ensures SourceBranch(CompiledBranch(n, n.branches[i], path, ctx)) == n.branches[i]
    {
      assert Bodies(n)[i] == Placed(Branch(n.branches[i].name), n.branches[i].body);
    }
  }

  lemma OneBodyGivesBack(n: NodeSpec, path: RegionPath, ctx: RegionCtx)
    requires (n.LoopSpec? || n.ForeachSpec? || n.SagaSpec?) && BodiesGiveBack(n, path, ctx)
    ensures SourceNode(CompiledNode(n, path, ctx)) == n
  {
    assert Bodies(n)[0] == Placed(Body, n.body);
  }

  lemma NodeGivesBack(n: NodeSpec, path: RegionPath, ctx: RegionCtx)
    requires BodiesGiveBack(n, path, ctx)
    ensures SourceNode(CompiledNode(n, path, ctx)) == n
  {
    if n.ChooseSpec? {
      ChooseGivesBack(n, path, ctx);
    } else if n.ParallelSpec? {
      ParallelGivesBack(n, path, ctx);
    } else if n.LoopSpec? || n.ForeachSpec? || n.SagaSpec? {
      OneBodyGivesBack(n, path, ctx);
    }
  }

  lemma BodyCtxSchemas(n: NodeSpec, body: RegionSpec, ctx: RegionCtx)
    ensures BodyCtx(n, body, ctx).inputSchema == body.inputSchema && BodyCtx(n, body, ctx).outputSchema == body.outputSchema
  {
  }

  /** Compiling loses nothing: every kind, binding, limit, name, target and body can be read off the region. */
  lemma {:induction false} RegionGivesBack(spec: RegionSpec, path: RegionPath, ctx: RegionCtx)
    requires ctx.inputSchema == spec.inputSchema && ctx.outputSchema == spec.outputSchema
    ensures SourceRegion(CompiledRegion(spec, path, ctx)) == spec
    decreases spec
  {
    forall k | k in spec.nodes
      ensures SourceNode(CompiledNode(spec.nodes[k], path + [PathSeg.Node(k)], ctx)) == spec.nodes[k]
    {
      var n, below := spec.nodes[k], path + [PathSeg.Node(k)];
      forall p | p in Bodies(n)
        ensures GivesBack(p.spec, below + [p.seg], BodyCtx(n, p.spec, ctx))
      {
        assert p.spec < n && n < spec;
        BodyCtxSchemas(n, p.spec, ctx);
        RegionGivesBack(p.spec, below + [p.seg], BodyCtx(n, p.spec, ctx));
      }
      NodeGivesBack(n, below, ctx);
    }
  }
}
