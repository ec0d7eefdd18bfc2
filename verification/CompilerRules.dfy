/**
 * When a document compiles, said of the regions and nodes it stands for: compilation succeeds exactly
 * if the compiled tree obeys these rules at every level and validates.
 */
module CompilerRules {
  import opened Prelude
  import opened Bindings
  import opened Ir
  import opened Codecs
  import opened RegionAnalysis
  import opened Validation
  import opened CompilerSpec
  import opened Compiler
  import opened CompilerTheorems

  ghost predicate Known(env: Env, body: Region) {
    body.inputSchema in env.schemas && body.outputSchema in env.schemas
  }

  ghost predicate CaseLaw(env: Env, cases: seq<ChooseCase>, default: Region) {
    && cases != []
    && (forall i :: 0 <= i < |cases| ==> ValidAsciiName(cases[i].name) && Known(env, cases[i].body))
    && (forall i :: 0 <= i < |cases| ==> cases[i].body.outputSchema == default.outputSchema)
    && forall i, j :: 0 <= i < |cases| && 0 <= j < |cases| && i != j ==> cases[i].name != cases[j].name
  }

  ghost predicate BranchLaw(env: Env, branches: seq<ParallelBranch>) {
    && 1 <= |branches| <= 16
    && (forall i :: 0 <= i < |branches| ==> ValidAsciiName(branches[i].name) && Known(env, branches[i].body))
    && forall i, j :: 0 <= i < |branches| && 0 <= j < |branches| && i != j ==> branches[i].name != branches[j].name
  }

  /** The rules for one node that do not depend on what encloses it. */
  ghost predicate NodeLaw(env: Env, node: Node) {
    && (!node.Complete? && !node.Fail? ==> ValidNodeKey(node.next))
    && (node.Activity? ==> node.activity in env.activities)
    && (node.Activity? && node.compensation.Some? && node.compensation.value.CompensateWith? ==>
          node.compensation.value.activity in env.activities)
    && (node.WaitSignal? ==> node.signal in env.signals && (node.timeoutMs.Some? <==> node.onTimeout.Some?))
    && (node.WaitSignal? && node.onTimeout.Some? ==> ValidNodeKey(node.onTimeout.value))
    && (node.While? || node.DoWhile? || node.Repeat? ==>
          && node.stateSchema in env.schemas && 1 <= node.maxIterations <= 1000
          && node.body.inputSchema == node.stateSchema && node.body.outputSchema == node.stateSchema)
    && (node.Foreach? ==>
          && node.itemSchema in env.schemas && 1 <= node.maxItems <= 1000 && 1 <= node.maxConcurrency <= 32
          && node.body.inputSchema == node.itemSchema && node.body.outputSchema in env.schemas)
    && (node.Parallel? ==> BranchLaw(env, node.branches))
    && (node.Choose? ==> CaseLaw(env, node.cases, node.default))
    && (node.Saga? ==> Known(env, node.body))
  }

  /** The rules at every level of the tree. */
  ghost predicate TreeLaw(env: Env, region: Region, inSaga: bool, depth: nat)
    decreases region
  {
    && depth <= 8
    && ValidNodeKey(region.start)
    && (forall k :: k in region.nodes ==>
          ValidNodeKey(k) && NodeLaw(env, region.nodes[k]) && NodeSagaRules(env, region.nodes[k], inSaga))
    && forall k, child :: Nested(region, k, child) ==>
         (NestedSmaller(region, k, child); TreeLaw(env, child, inSaga || region.nodes[k].Saga?, depth + 1))
  }

  // ----- one node -----

  lemma NamesDistinct(names: seq<string>)
    ensures DistinctNames(names) <==>
            && (forall i :: 0 <= i < |names| ==> ValidAsciiName(names[i]))
            && forall i, j :: 0 <= i < |names| && 0 <= j < |names| && i != j ==> names[i] != names[j]
  {
  }

  lemma CaseLooks(n: NodeSpec, c: CaseSpec, path: RegionPath, ctx: RegionCtx)
    ensures var compiled := CompiledCase(n, c, path, ctx);
            compiled.name == c.name && compiled.body.inputSchema == c.body.inputSchema && compiled.body.outputSchema == c.body.outputSchema
  {
  }

  lemma BranchLooks(n: NodeSpec, b: BranchSpec, path: RegionPath, ctx: RegionCtx)
    ensures var compiled := CompiledBranch(n, b, path, ctx);
            compiled.name == b.name && compiled.body.inputSchema == b.body.inputSchema && compiled.body.outputSchema == b.body.outputSchema
  {
  }

  lemma CasesLook(n: NodeSpec, path: RegionPath, ctx: RegionCtx)
    requires n.ChooseSpec?
    ensures var cases := CompiledNode(n, path, ctx).cases;
            |cases| == |n.cases| && forall i :: 0 <= i < |cases| ==>
              && cases[i].name == n.cases[i].name == CaseNames(n.cases)[i]
              && cases[i].body.inputSchema == n.cases[i].body.inputSchema && cases[i].body.outputSchema == n.cases[i].body.outputSchema
    ensures CompiledNode(n, path, ctx).default.outputSchema == n.default.outputSchema
  {
    forall i | 0 <= i < |n.cases|
      ensures CompiledNode(n, path, ctx).cases[i] == CompiledCase(n, n.cases[i], path, ctx)
    {
      CaseLooks(n, n.cases[i], path, ctx);
    }
    forall i | 0 <= i < |n.cases|
      ensures var compiled := CompiledCase(n, n.cases[i], path, ctx);
              && compiled.name == n.cases[i].name
              && compiled.body.inputSchema == n.cases[i].body.inputSchema && compiled.body.outputSchema == n.cases[i].body.outputSchema
    {
      CaseLooks(n, n.cases[i], path, ctx);
    }
  }

  lemma BranchesLook(n: NodeSpec, path: RegionPath, ctx: RegionCtx)
    requires n.ParallelSpec?
    ensures var branches := CompiledNode(n, path, ctx).branches;
            |branches| == |n.branches| && forall i :: 0 <= i < |branches| ==>
              && branches[i].name == n.branches[i].name == BranchNames(n.branches)[i]
              && branches[i].body.inputSchema == n.branches[i].body.inputSchema && branches[i].body.outputSchema == n.branches[i].body.outputSchema
  {
    forall i | 0 <= i < |n.branches|
      ensures var compiled := CompiledBranch(n, n.branches[i], path, ctx);
              && CompiledNode(n, path, ctx).branches[i] == compiled && compiled.name == n.branches[i].name
              && compiled.body.inputSchema == n.branches[i].body.inputSchema && compiled.body.outputSchema == n.branches[i].body.outputSchema
    {
      BranchLooks(n, n.branches[i], path, ctx);
    }
  }

  lemma ChooseLawIff(env: Env, n: NodeSpec, path: RegionPath, ctx: RegionCtx)
    requires n.ChooseSpec?
    ensures NodeFieldsCompile(env, n, ctx) <==> NodeLaw(env, CompiledNode(n, path, ctx))
  {
    NamesDistinct(CaseNames(n.cases));
    CasesLook(n, path, ctx);
  }

  lemma ParallelLawIff(env: Env, n: NodeSpec, path: RegionPath, ctx: RegionCtx)
    requires n.ParallelSpec?
    ensures NodeFieldsCompile(env, n, ctx) <==> NodeLaw(env, CompiledNode(n, path, ctx))
  {
    NamesDistinct(BranchNames(n.branches));
    BranchesLook(n, path, ctx);
  }

  lemma ActivityLawIff(env: Env, n: NodeSpec, path: RegionPath, ctx: RegionCtx)
    requires n.ActivitySpec?
    ensures NodeFieldsCompile(env, n, ctx) <==>
            NodeLaw(env, CompiledNode(n, path, ctx)) && NodeSagaRules(env, CompiledNode(n, path, ctx), ctx.inSaga)
  {
  }

  lemma OtherLawIff(env: Env, n: NodeSpec, path: RegionPath, ctx: RegionCtx)
    requires !n.ActivitySpec? && !n.ChooseSpec? && !n.ParallelSpec?
    ensures NodeFieldsCompile(env, n, ctx) <==> NodeLaw(env, CompiledNode(n, path, ctx))
  {
  }

  lemma NodeLawIff(env: Env, n: NodeSpec, path: RegionPath, ctx: RegionCtx)
    ensures NodeFieldsCompile(env, n, ctx) <==>
            NodeLaw(env, CompiledNode(n, path, ctx)) && NodeSagaRules(env, CompiledNode(n, path, ctx), ctx.inSaga)
  {
    if n.ActivitySpec? {
      ActivityLawIff(env, n, path, ctx);
    } else if n.ChooseSpec? {
      ChooseLawIff(env, n, path, ctx);
    } else if n.ParallelSpec? {
      ParallelLawIff(env, n, path, ctx);
    } else {
      OtherLawIff(env, n, path, ctx);
    }
  }

  // ----- the whole tree -----

  ghost predicate Compilable(env: Env, region: Region, ctx: RegionCtx, depth: nat) {
    TreeLaw(env, region, ctx.inSaga, depth) && TreeAccepted(region, ctx)
  }

  ghost predicate BodyLawful(env: Env, n: NodeSpec, p: Placed, path: RegionPath, ctx: RegionCtx, depth: nat) {
    Compilable(env, CompiledBody(n, p, path, ctx), BodyCtx(n, p.spec, ctx), depth + 1)
  }

  lemma ChildIsBody(spec: RegionSpec, path: RegionPath, ctx: RegionCtx, k: Key, p: Placed)
    requires k in spec.nodes && p in Bodies(spec.nodes[k])
    ensures Nested(CompiledRegion(spec, path, ctx), k, CompiledBody(spec.nodes[k], p, path + [PathSeg.Node(k)], ctx))
  {
    var n, at := spec.nodes[k], path + [PathSeg.Node(k)];
    CompiledChildren(n, at, ctx);
    var i :| 0 <= i < |Bodies(n)| && Bodies(n)[i] == p;
    assert ChildRegions(CompiledNode(n, at, ctx))[i] == CompiledBody(n, p, at, ctx);
  }

  lemma BodyIsLawful(env: Env, spec: RegionSpec, path: RegionPath, ctx: RegionCtx, depth: nat, k: Key, p: Placed)
    requires k in spec.nodes && p in Bodies(spec.nodes[k]) && Compilable(env, CompiledRegion(spec, path, ctx), ctx, depth)
    ensures BodyLawful(env, spec.nodes[k], p, path + [PathSeg.Node(k)], ctx, depth)
  {
    var n, at := spec.nodes[k], path + [PathSeg.Node(k)];
    ChildIsBody(spec, path, ctx, k, p);
    ContextsAgree(n, p, at, ctx);
    SagaFlag(n, p.spec, at, ctx);
  }

  lemma ChildFromBody(env: Env, spec: RegionSpec, path: RegionPath, ctx: RegionCtx, depth: nat, k: Key, child: Region)
    requires Nested(CompiledRegion(spec, path, ctx), k, child)
    requires forall p :: p in Bodies(spec.nodes[k]) ==> BodyLawful(env, spec.nodes[k], p, path + [PathSeg.Node(k)], ctx, depth)
    ensures var node := CompiledRegion(spec, path, ctx).nodes[k];
            TreeLaw(env, child, ctx.inSaga || node.Saga?, depth + 1) && TreeAccepted(child, ChildCtx(node, child, ctx))
  {
    var p := NestedPlaced(spec, path, ctx, k, child);
    var n, at := spec.nodes[k], path + [PathSeg.Node(k)];
    assert BodyLawful(env, n, p, at, ctx, depth);
    assert BodyPath(path, k, p) == at + [p.seg];
    ContextsAgree(n, p, at, ctx);
    SagaFlag(n, p.spec, at, ctx);
  }

  /** What one level contributes: keys, node rules and acceptance. */
  ghost predicate LevelLaw(env: Env, spec: RegionSpec, path: RegionPath, ctx: RegionCtx, depth: nat) {
    && depth <= 8 && ValidNodeKey(spec.start) && Accepted(CompiledRegion(spec, path, ctx), ctx)
    && forall k :: k in spec.nodes ==> ValidNodeKey(k) && NodeFieldsCompile(env, spec.nodes[k], ctx)
  }

  lemma AllBodiesLawful(env: Env, spec: RegionSpec, path: RegionPath, ctx: RegionCtx, depth: nat)
    requires LevelLaw(env, spec, path, ctx, depth)
    requires forall k, p :: k in spec.nodes && p in Bodies(spec.nodes[k]) ==>
               BodyLawful(env, spec.nodes[k], p, path + [PathSeg.Node(k)], ctx, depth)
    ensures Compilable(env, CompiledRegion(spec, path, ctx), ctx, depth)
  {
    var region := CompiledRegion(spec, path, ctx);
    forall k | k in region.nodes
      ensures NodeLaw(env, region.nodes[k]) && NodeSagaRules(env, region.nodes[k], ctx.inSaga)
    {
      NodeLawIff(env, spec.nodes[k], path + [PathSeg.Node(k)], ctx);
    }
    forall k, child | Nested(region, k, child)
      ensures TreeLaw(env, child, ctx.inSaga || region.nodes[k].Saga?, depth + 1)
      ensures TreeAccepted(child, ChildCtx(region.nodes[k], child, ctx))
    {
      ChildFromBody(env, spec, path, ctx, depth, k, child);
    }
  }

  lemma LevelIsLawful(env: Env, spec: RegionSpec, path: RegionPath, ctx: RegionCtx, depth: nat)
    requires Compilable(env, CompiledRegion(spec, path, ctx), ctx, depth)
    ensures LevelLaw(env, spec, path, ctx, depth)
  {
    var region := CompiledRegion(spec, path, ctx);
    forall k | k in spec.nodes
      ensures ValidNodeKey(k) && NodeFieldsCompile(env, spec.nodes[k], ctx)
    {
      assert k in region.nodes;
      NodeLawIff(env, spec.nodes[k], path + [PathSeg.Node(k)], ctx);
    }
  }

  lemma StartInside(region: Region, ctx: RegionCtx)
    requires Accepted(region, ctx)
    ensures region.start in region.nodes
  {
  }

  ghost predicate BodiesCompile(env: Env, spec: RegionSpec, path: RegionPath, ctx: RegionCtx, depth: nat) {
    forall k, p :: k in spec.nodes && p in Bodies(spec.nodes[k]) ==>
      BodyCompiles(env, spec.nodes[k], p, path + [PathSeg.Node(k)], ctx, depth)
  }

  lemma CompiledLevel(env: Env, spec: RegionSpec, path: RegionPath, ctx: RegionCtx, depth: nat)
    requires RegionCompiles(env, spec, path, ctx, depth)
    ensures LevelLaw(env, spec, path, ctx, depth) && BodiesCompile(env, spec, path, ctx, depth)
  {
    forall k | k in spec.nodes
      ensures ValidNodeKey(k) && NodeCompiles(env, spec.nodes[k], path + [PathSeg.Node(k)], ctx, depth)
    {
    }
  }

  lemma LevelCompiles(env: Env, spec: RegionSpec, path: RegionPath, ctx: RegionCtx, depth: nat)
    requires LevelLaw(env, spec, path, ctx, depth) && BodiesCompile(env, spec, path, ctx, depth)
    ensures RegionCompiles(env, spec, path, ctx, depth)
  {
    StartInside(CompiledRegion(spec, path, ctx), ctx);
    forall k | k in spec.nodes
      ensures NodeCompiles(env, spec.nodes[k], path + [PathSeg.Node(k)], ctx, depth)
    {
      assert NodeFieldsCompile(env, spec.nodes[k], ctx);
    }
  }

  lemma CompilesByLevel(env: Env, spec: RegionSpec, path: RegionPath, ctx: RegionCtx, depth: nat)
    ensures RegionCompiles(env, spec, path, ctx, depth) <==>
            LevelLaw(env, spec, path, ctx, depth) && BodiesCompile(env, spec, path, ctx, depth)
  {
    if RegionCompiles(env, spec, path, ctx, depth) {
      CompiledLevel(env, spec, path, ctx, depth);
    } else if LevelLaw(env, spec, path, ctx, depth) && BodiesCompile(env, spec, path, ctx, depth) {
      LevelCompiles(env, spec, path, ctx, depth);
    }
  }

  /** A region compiles exactly if the tree it stands for obeys the rules at every level and validates. */
  lemma {:induction false} CompilesIffLawful(env: Env, spec: RegionSpec, path: RegionPath, ctx: RegionCtx, depth: nat)
    ensures RegionCompiles(env, spec, path, ctx, depth) <==> Compilable(env, CompiledRegion(spec, path, ctx), ctx, depth)
    decreases spec
  {
    CompilesByLevel(env, spec, path, ctx, depth);
    forall k, p | k in spec.nodes && p in Bodies(spec.nodes[k])
      ensures BodyCompiles(env, spec.nodes[k], p, path + [PathSeg.Node(k)], ctx, depth) <==>
              BodyLawful(env, spec.nodes[k], p, path + [PathSeg.Node(k)], ctx, depth)
    {
      BodySmaller(spec, k, p);
      CompilesIffLawful(env, p.spec, path + [PathSeg.Node(k)] + [p.seg], BodyCtx(spec.nodes[k], p.spec, ctx), depth + 1);
    }
    if LevelLaw(env, spec, path, ctx, depth) && forall k, p :: k in spec.nodes && p in Bodies(spec.nodes[k]) ==>
         BodyLawful(env, spec.nodes[k], p, path + [PathSeg.Node(k)], ctx, depth) {
      AllBodiesLawful(env, spec, path, ctx, depth);
    }
    if Compilable(env, CompiledRegion(spec, path, ctx), ctx, depth) {
      LevelIsLawful(env, spec, path, ctx, depth);
      forall k, p | k in spec.nodes && p in Bodies(spec.nodes[k])
        ensures BodyLawful(env, spec.nodes[k], p, path + [PathSeg.Node(k)], ctx, depth)
      {
        BodyIsLawful(env, spec, path, ctx, depth, k, p);
      }
    }
  }

  /** A header names the workflow, its schemas are known, its run ends within a year and its signals are named and known. */
  ghost predicate HeaderLaw(env: Env, d: Definition) {
    && ValidAsciiName(d.id) && d.version >= 1 && d.inputSchema in env.schemas && d.outputSchema in env.schemas
    && (d.runTimeoutMs.Some? ==> d.runTimeoutMs.value <= 31_536_000_000)
    && forall s :: s in d.signals ==> ValidAsciiName(s) && d.signals[s] in env.schemas
  }

  lemma HeaderLawIff(env: Env, w: WorkflowSpec)
    ensures HeaderCompiles(env, w) <==> HeaderLaw(env, CompiledDefinition(w))
  {
  }

  ghost predicate RootCompilable(env: Env, d: Definition) {
    TreeLaw(env.(signals := d.signals.Keys), d.root, false, 1) && DefinitionValid(d)
  }

  lemma RootCompilesIff(env: Env, w: WorkflowSpec)
    ensures RegionCompiles(env.(signals := w.signals.Keys), w.root, [Root], RootRegionCtx(w), 1) <==> RootCompilable(env, CompiledDefinition(w))
  {
    CompilesIffLawful(env.(signals := w.signals.Keys), w.root, [Root], RootRegionCtx(w), 1);
  }

  /**
   * A workflow compiles exactly if the definition it stands for has a lawful header, at most 512 nodes,
   * obeys the rules at every level and validates.
   */
  lemma DefinitionCompilesIff(env: Env, w: WorkflowSpec)
    ensures var d := CompiledDefinition(w);
            DefinitionCompiles(env, w) <==>
            HeaderLaw(env, d) && NodeTotal(d.root) <= 512 && RootCompilable(env, d)
  {
    HeaderLawIff(env, w);
    RootCompilesIff(env, w);
  }
}
