/** What every compiled definition satisfies, over its whole tree of regions. */
module CompilerTheorems {
  import opened Prelude
  import opened Bindings
  import opened Ir
  import opened RegionAnalysis
  import opened Validation
  import opened CompilerSpec
  import opened Compiler

  // ----- the two recursions agree -----

  /** Compiler and validator hand the same context to every nested region. */
  lemma ContextsAgree(n: NodeSpec, p: Placed, path: RegionPath, ctx: RegionCtx)
    requires p in Bodies(n)
    ensures ChildCtx(CompiledNode(n, path, ctx), CompiledBody(n, p, path, ctx), ctx) == BodyCtx(n, p.spec, ctx)
  {
  }

  /** Each region nested in a compiled node comes from a body that compiled in the same place. */
  lemma NestedBody(env: Env, spec: RegionSpec, path: RegionPath, ctx: RegionCtx, depth: nat, k: Key, child: Region)
    returns (p: Placed)
    requires RegionCompiles(env, spec, path, ctx, depth) && Nested(CompiledRegion(spec, path, ctx), k, child)
    ensures k in spec.nodes && p in Bodies(spec.nodes[k])
    ensures child == CompiledBody(spec.nodes[k], p, path + [PathSeg.Node(k)], ctx)
    ensures BodyCompiles(env, spec.nodes[k], p, path + [PathSeg.Node(k)], ctx, depth)
  {
    var n, at := spec.nodes[k], path + [PathSeg.Node(k)];
    CompiledChildren(n, at, ctx);
    var i :| 0 <= i < |Bodies(n)| && ChildRegions(CompiledNode(n, at, ctx))[i] == child;
    p := Bodies(n)[i];
    assert NodeCompiles(env, n, at, ctx, depth);
  }

  lemma {:induction false} CompiledTreeAccepted(env: Env, spec: RegionSpec, path: RegionPath, ctx: RegionCtx, depth: nat)
    requires RegionCompiles(env, spec, path, ctx, depth)
    ensures TreeAccepted(CompiledRegion(spec, path, ctx), ctx)
    decreases spec
  {
    var region := CompiledRegion(spec, path, ctx);
    forall k, child | Nested(region, k, child)
      ensures TreeAccepted(child, ChildCtx(region.nodes[k], child, ctx))
    {
      var p := NestedBody(env, spec, path, ctx, depth, k, child);
      var n, at := spec.nodes[k], path + [PathSeg.Node(k)];
      ContextsAgree(n, p, at, ctx);
      CompiledTreeAccepted(env, p.spec, at + [p.seg], BodyCtx(n, p.spec, ctx), depth + 1);
    }
  }

  /** Whatever the compiler returns, validation accepts. */
  lemma CompiledDefinitionValidates(env: Env, w: WorkflowSpec)
    requires DefinitionCompiles(env, w)
    ensures DefinitionValid(CompiledDefinition(w))
  {
    CompiledTreeAccepted(env.(signals := w.signals.Keys), w.root, [Root], RootRegionCtx(w), 1);
  }

  // ----- positions in the tree -----

  /** The checks that look at nodes and nesting, without the analysis of regions. */
  ghost predicate Lawful(env: Env, spec: RegionSpec, ctx: RegionCtx, depth: nat)
    decreases spec
  {
    && depth <= MAX_NESTING
    && (forall k :: k in spec.nodes ==> NodeFieldsCompile(env, spec.nodes[k], ctx))
    && forall k, p :: k in spec.nodes && p in Bodies(spec.nodes[k]) ==>
         (BodySmaller(spec, k, p); Lawful(env, p.spec, BodyCtx(spec.nodes[k], p.spec, ctx), depth + 1))
  }

  lemma BodySmaller(spec: RegionSpec, k: Key, p: Placed)
    requires k in spec.nodes && p in Bodies(spec.nodes[k])
    ensures p.spec < spec
  {
    assert spec.nodes[k] < spec;
  }

  lemma LawfulBody(env: Env, spec: RegionSpec, ctx: RegionCtx, depth: nat, k: Key, p: Placed)
    requires Lawful(env, spec, ctx, depth) && k in spec.nodes && p in Bodies(spec.nodes[k])
    ensures Lawful(env, p.spec, BodyCtx(spec.nodes[k], p.spec, ctx), depth + 1)
  {
  }

  lemma {:induction false} CompilesLawful(env: Env, spec: RegionSpec, path: RegionPath, ctx: RegionCtx, depth: nat)
    requires RegionCompiles(env, spec, path, ctx, depth)
    ensures Lawful(env, spec, ctx, depth)
    decreases spec
  {
    forall k | k in spec.nodes
      ensures NodeFieldsCompile(env, spec.nodes[k], ctx)
    {
      assert NodeCompiles(env, spec.nodes[k], path + [PathSeg.Node(k)], ctx, depth);
    }
    forall k, p | k in spec.nodes && p in Bodies(spec.nodes[k])
      ensures Lawful(env, p.spec, BodyCtx(spec.nodes[k], p.spec, ctx), depth + 1)
    {
      assert NodeCompiles(env, spec.nodes[k], path + [PathSeg.Node(k)], ctx, depth);
      assert BodyCompiles(env, spec.nodes[k], p, path + [PathSeg.Node(k)], ctx, depth);
      BodySmaller(spec, k, p);
      CompilesLawful(env, p.spec, path + [PathSeg.Node(k)] + [p.seg], BodyCtx(spec.nodes[k], p.spec, ctx), depth + 1);
    }
  }

  function BodyPath(path: RegionPath, k: Key, p: Placed): RegionPath {
    path + [PathSeg.Node(k)] + [p.seg]
  }

  /** The body that a first descent enters. */
  lemma FirstDescent(spec: RegionSpec, path: RegionPath, ctx: RegionCtx, position: seq<Descent>) returns (n: NodeSpec, p: Placed)
    requires position != [] && Sub(CompiledRegion(spec, path, ctx), position).Some?
    ensures position[0].key in spec.nodes && n == spec.nodes[position[0].key]
    ensures position[0].index < |Bodies(n)| && p == Bodies(n)[position[0].index] && p in Bodies(n)
    ensures p.spec < spec
    ensures Sub(CompiledRegion(spec, path, ctx), position) ==
            Sub(CompiledRegion(p.spec, BodyPath(path, position[0].key, p), BodyCtx(n, p.spec, ctx)), position[1..])
  {
    n := spec.nodes[position[0].key];
    CompiledChildren(n, path + [PathSeg.Node(position[0].key)], ctx);
    p := Bodies(n)[position[0].index];
    BodySmaller(spec, position[0].key, p);
  }

  /** The lawful region that a first descent leads to. */
  lemma Descend(env: Env, spec: RegionSpec, path: RegionPath, ctx: RegionCtx, depth: nat, position: seq<Descent>)
    returns (spec': RegionSpec, path': RegionPath, ctx': RegionCtx)
    requires Lawful(env, spec, ctx, depth) && position != [] && Sub(CompiledRegion(spec, path, ctx), position).Some?
    ensures Lawful(env, spec', ctx', depth + 1)
    ensures Sub(CompiledRegion(spec', path', ctx'), position[1..]).Some?
  {
    var n, p := FirstDescent(spec, path, ctx, position);
    LawfulBody(env, spec, ctx, depth, position[0].key, p);
    spec', path', ctx' := p.spec, BodyPath(path, position[0].key, p), BodyCtx(n, p.spec, ctx);
  }

  lemma LawfulDepth(env: Env, spec: RegionSpec, ctx: RegionCtx, depth: nat)
    requires Lawful(env, spec, ctx, depth)
    ensures depth <= MAX_NESTING
  {
  }

  /** No region lies deeper than the nesting limit. */
  lemma {:induction false} NestingBounded(env: Env, spec: RegionSpec, path: RegionPath, ctx: RegionCtx, depth: nat, position: seq<Descent>)
    requires Lawful(env, spec, ctx, depth) && Sub(CompiledRegion(spec, path, ctx), position).Some?
    ensures depth + |position| <= MAX_NESTING
    decreases |position|
  {
    if position == [] {
      LawfulDepth(env, spec, ctx, depth);
    } else {
      var spec', path', ctx' := Descend(env, spec, path, ctx, depth, position);
      NestingBounded(env, spec', path', ctx', depth + 1, position[1..]);
    }
  }

  lemma {:induction false} SubPathExtends(spec: RegionSpec, path: RegionPath, ctx: RegionCtx, position: seq<Descent>)
    requires Sub(CompiledRegion(spec, path, ctx), position).Some?
    ensures var sub := Sub(CompiledRegion(spec, path, ctx), position).value.path;
            path <= sub && |sub| == |path| + 2 * |position|
    decreases |position|
  {
    if position != [] {
      var n, p := FirstDescent(spec, path, ctx, position);
      SubPathExtends(p.spec, BodyPath(path, position[0].key, p), BodyCtx(n, p.spec, ctx), position[1..]);
    }
  }

  /** The segment of the `index`th region nested in a node. */
  function SegmentOf(node: Node, index: nat): PathSeg
    requires index < |ChildRegions(node)|
  {
    if node.Choose? then (if index < |node.cases| then Case(node.cases[index].name) else Default)
    else if node.Parallel? then Branch(node.branches[index].name)
    else Body
  }

  /** The way down to `position`, spelled out: at each level the node and the body entered. */
  function Spelled(region: Region, position: seq<Descent>): RegionPath
    requires Sub(region, position).Some?
    decreases |position|
  {
    if position == [] then []
    else
      var node := region.nodes[position[0].key];
      [PathSeg.Node(position[0].key), SegmentOf(node, position[0].index)]
        + Spelled(ChildRegions(node)[position[0].index], position[1..])
  }

  lemma SegmentAgrees(n: NodeSpec, path: RegionPath, ctx: RegionCtx, i: nat)
    requires i < |Bodies(n)|
    ensures i < |ChildRegions(CompiledNode(n, path, ctx))| && SegmentOf(CompiledNode(n, path, ctx), i) == Bodies(n)[i].seg
  {
    CompiledChildren(n, path, ctx);
  }

  lemma FirstSpelled(spec: RegionSpec, path: RegionPath, ctx: RegionCtx, position: seq<Descent>, n: NodeSpec, p: Placed)
    requires position != [] && Sub(CompiledRegion(spec, path, ctx), position).Some?
    requires position[0].key in spec.nodes && n == spec.nodes[position[0].key] && position[0].index < |Bodies(n)| && p == Bodies(n)[position[0].index]
    ensures var below := CompiledRegion(p.spec, BodyPath(path, position[0].key, p), BodyCtx(n, p.spec, ctx));
            && Sub(below, position[1..]).Some?
            && Spelled(CompiledRegion(spec, path, ctx), position) == [PathSeg.Node(position[0].key), p.seg] + Spelled(below, position[1..])
  {
    CompiledChildren(n, path + [PathSeg.Node(position[0].key)], ctx);
    SegmentAgrees(n, path + [PathSeg.Node(position[0].key)], ctx, position[0].index);
  }

  lemma TwoMore(path: RegionPath, a: PathSeg, b: PathSeg, rest: RegionPath)
    ensures path + ([a, b] + rest) == path + [a] + [b] + rest
  {
  }

  /** One level down, the path and what is left to spell move on together. */
  lemma SpelledBelow(spec: RegionSpec, path: RegionPath, ctx: RegionCtx, position: seq<Descent>)
    returns (spec': RegionSpec, path': RegionPath, ctx': RegionCtx)
    requires position != [] && Sub(CompiledRegion(spec, path, ctx), position).Some?
    ensures Sub(CompiledRegion(spec, path, ctx), position) == Sub(CompiledRegion(spec', path', ctx'), position[1..])
    ensures path + Spelled(CompiledRegion(spec, path, ctx), position) == path' + Spelled(CompiledRegion(spec', path', ctx'), position[1..])
  {
    var n, p := FirstDescent(spec, path, ctx, position);
    FirstSpelled(spec, path, ctx, position, n, p);
    spec', path', ctx' := p.spec, BodyPath(path, position[0].key, p), BodyCtx(n, p.spec, ctx);
    TwoMore(path, PathSeg.Node(position[0].key), p.seg, Spelled(CompiledRegion(spec', path', ctx'), position[1..]));
  }

  lemma CompiledPath(spec: RegionSpec, path: RegionPath, ctx: RegionCtx)
    ensures CompiledRegion(spec, path, ctx).path == path
  {
  }

  /** The path of every region of a compiled tree spells out the way down to it. */
  lemma {:induction false} PathIsSpelled(spec: RegionSpec, path: RegionPath, ctx: RegionCtx, position: seq<Descent>)
    requires Sub(CompiledRegion(spec, path, ctx), position).Some?
    ensures Sub(CompiledRegion(spec, path, ctx), position).value.path == path + Spelled(CompiledRegion(spec, path, ctx), position)
    decreases |position|
  {
    if position == [] {
      CompiledPath(spec, path, ctx);
    } else {
      var spec', path', ctx' := SpelledBelow(spec, path, ctx, position);
      PathIsSpelled(spec', path', ctx', position[1..]);
    }
  }

  /** The two path segments that a first descent adds. */
  lemma FirstSegments(spec: RegionSpec, path: RegionPath, ctx: RegionCtx, position: seq<Descent>)
    requires position != [] && Sub(CompiledRegion(spec, path, ctx), position).Some?
    ensures var sub := Sub(CompiledRegion(spec, path, ctx), position).value.path;
            && |sub| >= |path| + 2 && sub[|path|] == PathSeg.Node(position[0].key)
            && position[0].key in spec.nodes && position[0].index < |Bodies(spec.nodes[position[0].key])|
            && sub[|path| + 1] == Bodies(spec.nodes[position[0].key])[position[0].index].seg
  {
    var n, p := FirstDescent(spec, path, ctx, position);
    SubPathExtends(p.spec, BodyPath(path, position[0].key, p), BodyCtx(n, p.spec, ctx), position[1..]);
  }

  /** Different bodies of one node have different path segments. */
  lemma SegmentsDistinct(env: Env, n: NodeSpec, ctx: RegionCtx, i: nat, j: nat)
    requires NodeFieldsCompile(env, n, ctx) && i < |Bodies(n)| && j < |Bodies(n)| && Bodies(n)[i].seg == Bodies(n)[j].seg
    ensures i == j
  {
    if n.ChooseSpec? && i < |n.cases| && j < |n.cases| {
      assert CaseNames(n.cases)[i] == n.cases[i].name && CaseNames(n.cases)[j] == n.cases[j].name;
    } else if n.ParallelSpec? {
      assert BranchNames(n.branches)[i] == n.branches[i].name && BranchNames(n.branches)[j] == n.branches[j].name;
    }
  }

  /** Both positions exist and their regions have one path. */
  ghost predicate SamePath(spec: RegionSpec, path: RegionPath, ctx: RegionCtx, a: seq<Descent>, b: seq<Descent>) {
    var root := CompiledRegion(spec, path, ctx);
    Sub(root, a).Some? && Sub(root, b).Some? && Sub(root, a).value.path == Sub(root, b).value.path
  }

  lemma BothEmpty(spec: RegionSpec, path: RegionPath, ctx: RegionCtx, a: seq<Descent>, b: seq<Descent>)
    requires SamePath(spec, path, ctx, a, b)
    ensures a == [] <==> b == []
  {
    SubPathExtends(spec, path, ctx, a);
    SubPathExtends(spec, path, ctx, b);
  }

  /** Such positions descend into the same body first. */
  lemma FirstSame(env: Env, spec: RegionSpec, path: RegionPath, ctx: RegionCtx, depth: nat, a: seq<Descent>, b: seq<Descent>)
    requires Lawful(env, spec, ctx, depth) && a != [] && b != [] && SamePath(spec, path, ctx, a, b)
    ensures a[0] == b[0]
  {
    FirstSegments(spec, path, ctx, a);
    FirstSegments(spec, path, ctx, b);
    SegmentsDistinct(env, spec.nodes[a[0].key], ctx, a[0].index, b[0].index);
  }

  lemma SamePathBelow(env: Env, spec: RegionSpec, path: RegionPath, ctx: RegionCtx, depth: nat, a: seq<Descent>, b: seq<Descent>)
    returns (spec': RegionSpec, path': RegionPath, ctx': RegionCtx)
    requires Lawful(env, spec, ctx, depth) && a != [] && b != [] && a[0] == b[0] && SamePath(spec, path, ctx, a, b)
    ensures Lawful(env, spec', ctx', depth + 1) && SamePath(spec', path', ctx', a[1..], b[1..])
  {
    var n, p := FirstDescent(spec, path, ctx, a);
    var m, q := FirstDescent(spec, path, ctx, b);
    LawfulBody(env, spec, ctx, depth, a[0].key, p);
    spec', path', ctx' := p.spec, BodyPath(path, a[0].key, p), BodyCtx(n, p.spec, ctx);
  }

  /** A region's path determines its position: no two regions of a definition share a path. */
  lemma {:induction false} PathsUnique(env: Env, spec: RegionSpec, path: RegionPath, ctx: RegionCtx, depth: nat, a: seq<Descent>, b: seq<Descent>)
    requires Lawful(env, spec, ctx, depth) && SamePath(spec, path, ctx, a, b)
    ensures a == b
    decreases |a|
  {
    BothEmpty(spec, path, ctx, a, b);
    if a != [] {
      FirstSame(env, spec, path, ctx, depth, a, b);
      var spec', path', ctx' := SamePathBelow(env, spec, path, ctx, depth, a, b);
      PathsUnique(env, spec', path', ctx', depth + 1, a[1..], b[1..]);
      assert a == [a[0]] + a[1..] && b == [b[0]] + b[1..];
    }
  }

  // ----- sagas -----

  /** Compensation stands only under a saga, covers every external activity there, and reads only forward values. */
  ghost predicate NodeSagaRules(env: Env, node: Node, inSaga: bool) {
    node.Activity? ==>
      && (node.compensation.Some? ==> inSaga)
      && (inSaga && node.activity in env.activities && env.activities[node.activity] == External ==> node.compensation.Some?)
      && (node.compensation.Some? && node.compensation.value.CompensateWith? ==>
            forall r :: r in References(node.compensation.value.input) ==> r in {ForwardInput, ForwardOutput})
  }

  ghost predicate SagaRules(env: Env, region: Region, inSaga: bool)
    decreases region
  {
    && (forall k :: k in region.nodes ==> NodeSagaRules(env, region.nodes[k], inSaga))
    && forall k, child :: Nested(region, k, child) ==>
         (NestedSmaller(region, k, child); SagaRules(env, child, inSaga || region.nodes[k].Saga?))
  }

  lemma LawfulNodeSaga(env: Env, n: NodeSpec, path: RegionPath, ctx: RegionCtx)
    requires NodeFieldsCompile(env, n, ctx)
    ensures NodeSagaRules(env, CompiledNode(n, path, ctx), ctx.inSaga)
  {
  }

  lemma {:induction false} CompiledSagaRules(env: Env, spec: RegionSpec, path: RegionPath, ctx: RegionCtx, depth: nat)
    requires Lawful(env, spec, ctx, depth)
    ensures SagaRules(env, CompiledRegion(spec, path, ctx), ctx.inSaga)
    decreases spec
  {
    var region := CompiledRegion(spec, path, ctx);
    forall k | k in region.nodes
      ensures NodeSagaRules(env, region.nodes[k], ctx.inSaga)
    {
      LawfulNodeSaga(env, spec.nodes[k], path + [PathSeg.Node(k)], ctx);
    }
    forall k, child | Nested(region, k, child)
      ensures SagaRules(env, child, ctx.inSaga || region.nodes[k].Saga?)
    {
      ChildSagaRules(env, spec, path, ctx, depth, k, child);
    }
  }

  lemma SagaFlag(n: NodeSpec, body: RegionSpec, path: RegionPath, ctx: RegionCtx)
    ensures BodyCtx(n, body, ctx).inSaga == (ctx.inSaga || CompiledNode(n, path, ctx).Saga?)
  {
  }

  lemma NestedPlaced(spec: RegionSpec, path: RegionPath, ctx: RegionCtx, k: Key, child: Region) returns (p: Placed)
    requires Nested(CompiledRegion(spec, path, ctx), k, child)
    ensures k in spec.nodes && p in Bodies(spec.nodes[k]) && p.spec < spec
    ensures child == CompiledRegion(p.spec, BodyPath(path, k, p), BodyCtx(spec.nodes[k], p.spec, ctx))
  {
    var n := spec.nodes[k];
    CompiledChildren(n, path + [PathSeg.Node(k)], ctx);
    var i :| 0 <= i < |Bodies(n)| && ChildRegions(CompiledNode(n, path + [PathSeg.Node(k)], ctx))[i] == child;
    p := Bodies(n)[i];
    BodySmaller(spec, k, p);
  }

  lemma {:induction false} ChildSagaRules(env: Env, spec: RegionSpec, path: RegionPath, ctx: RegionCtx, depth: nat, k: Key, child: Region)
    requires Lawful(env, spec, ctx, depth) && Nested(CompiledRegion(spec, path, ctx), k, child)
    ensures SagaRules(env, child, ctx.inSaga || CompiledRegion(spec, path, ctx).nodes[k].Saga?)
    decreases spec, 0
  {
    var p := NestedPlaced(spec, path, ctx, k, child);
    SagaFlag(spec.nodes[k], p.spec, path + [PathSeg.Node(k)], ctx);
    LawfulBody(env, spec, ctx, depth, k, p);
    CompiledSagaRules(env, p.spec, BodyPath(path, k, p), BodyCtx(spec.nodes[k], p.spec, ctx), depth + 1);
  }

  // ----- timeouts -----

  /** A wait has a timeout target exactly if it has a timeout. */
  predicate TimeoutPaired(k: Key, node: Node) {
    node.WaitSignal? ==> node.timeoutMs.Some? == node.onTimeout.Some?
  }

  lemma LawfulNodePaired(env: Env, n: NodeSpec, path: RegionPath, ctx: RegionCtx, k: Key)
    requires NodeFieldsCompile(env, n, ctx)
    ensures TimeoutPaired(k, CompiledNode(n, path, ctx))
  {
  }

  /** At every depth of a compiled tree, timeouts and their targets come together. */
  lemma {:induction false} CompiledTimeoutsPaired(env: Env, spec: RegionSpec, path: RegionPath, ctx: RegionCtx, depth: nat)
    requires Lawful(env, spec, ctx, depth)
    ensures Everywhere(CompiledRegion(spec, path, ctx), TimeoutPaired)
    decreases spec
  {
    var region := CompiledRegion(spec, path, ctx);
    forall k | k in region.nodes
      ensures TimeoutPaired(k, region.nodes[k])
    {
      LawfulNodePaired(env, spec.nodes[k], path + [PathSeg.Node(k)], ctx, k);
    }
    forall k, child | Nested(region, k, child)
      ensures Everywhere(child, TimeoutPaired)
    {
      ChildTimeoutsPaired(env, spec, path, ctx, depth, k, child);
    }
  }

  lemma {:induction false} ChildTimeoutsPaired(env: Env, spec: RegionSpec, path: RegionPath, ctx: RegionCtx, depth: nat, k: Key, child: Region)
    requires Lawful(env, spec, ctx, depth) && Nested(CompiledRegion(spec, path, ctx), k, child)
    ensures Everywhere(child, TimeoutPaired)
    decreases spec, 0
  {
    var p := NestedPlaced(spec, path, ctx, k, child);
    LawfulBody(env, spec, ctx, depth, k, p);
    CompiledTimeoutsPaired(env, p.spec, BodyPath(path, k, p), BodyCtx(spec.nodes[k], p.spec, ctx), depth + 1);
  }

  lemma {:induction false} PairedIsSet(region: Region)
    requires Everywhere(region, TimeoutPaired)
    ensures Everywhere(region, TimeoutSet)
    decreases region
  {
    forall k | k in region.nodes
      ensures TimeoutSet(k, region.nodes[k])
    {
      assert TimeoutPaired(k, region.nodes[k]);
    }
    forall k, child | Nested(region, k, child)
      ensures Everywhere(child, TimeoutSet)
    {
      NestedSmaller(region, k, child);
      PairedIsSet(child);
    }
  }

  // ----- the summary for whole definitions -----

  /**
   * Every compiled definition has at most 512 nodes over all levels and 8 levels of regions,
   * no two regions with the same path, lawful sagas, timeouts paired with their targets, and
   * no unconnected exit at any level.
   */
  lemma CompiledDefinitionInvariants(env: Env, w: WorkflowSpec)
    requires DefinitionCompiles(env, w)
    ensures var root := CompiledDefinition(w).root;
            && NodeTotal(root) <= MAX_NODES
            && (forall position :: Sub(root, position).Some? ==> |position| < MAX_NESTING)
            && (forall a, b :: Sub(root, a).Some? && Sub(root, b).Some? && Sub(root, a).value.path == Sub(root, b).value.path ==> a == b)
            && SagaRules(env.(signals := w.signals.Keys), root, false)
            && Everywhere(root, TimeoutPaired) && Everywhere(root, ExitsSet)
  {
    var inner, root := env.(signals := w.signals.Keys), CompiledDefinition(w).root;
    CompilesLawful(inner, w.root, [Root], RootRegionCtx(w), 1);
    forall position | Sub(root, position).Some?
      ensures |position| < MAX_NESTING
    {
      NestingBounded(inner, w.root, [Root], RootRegionCtx(w), 1, position);
    }
    forall a, b | Sub(root, a).Some? && Sub(root, b).Some? && Sub(root, a).value.path == Sub(root, b).value.path
      ensures a == b
    {
      PathsUnique(inner, w.root, [Root], RootRegionCtx(w), 1, a, b);
    }
    CompiledSagaRules(inner, w.root, [Root], RootRegionCtx(w), 1);
    CompiledDefinitionValidates(env, w);
    CompiledTimeoutsPaired(inner, w.root, [Root], RootRegionCtx(w), 1);
    PairedIsSet(root);
    AcceptedExitsSetIff(root, RootCtx(w.root.inputSchema, w.root.outputSchema));
  }
}
