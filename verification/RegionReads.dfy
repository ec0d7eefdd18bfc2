/**
 * The rule of the analysis in terms of the data alone: which references stand where in which field
 * of a node, which nodes a walk passes, and what lies around a region.
 */
module RegionReads {
  import opened Prelude
  import opened Bindings
  import opened BindingPaths
  import opened Ir
  import opened Graph
  import opened Availability
  import opened RegionAnalysis
  import opened RegionTheorems

  // ----- what a node evaluates -----

  /** The node evaluates `b`: a field of its own, a side of a test in one of its conditions, or a branch input. */
  ghost predicate Evaluates(node: Node, b: Binding) {
    || (node.Activity? && (b == node.input || exists handler :: node.compensation == Some(CompensateWith(handler, b))))
    || (node.Choose? && (b == node.input || exists i :: 0 <= i < |node.cases| && TestsSomewhere(node.cases[i].when, b)))
    || (node.Delay? && b == node.duration)
    || (node.WaitUntil? && b == node.at)
    || (node.WaitSignal? && b == node.key)
    || (node.Complete? && b == node.output)
    || ((node.While? || node.DoWhile?) && (b == node.state || TestsSomewhere(node.condition, b)))
    || (node.Repeat? && (b == node.count || b == node.state))
    || (node.Foreach? && b == node.items)
    || (node.Parallel? && exists i :: 0 <= i < |node.branches| && b == node.branches[i].input)
    || (node.Saga? && b == node.input)
  }

  lemma {:induction false} CasesEvaluated(cases: seq<ChooseCase>, b: Binding)
    ensures b in CasesBindings(cases) <==> exists i :: 0 <= i < |cases| && TestsSomewhere(cases[i].when, b)
    decreases |cases|
  {
    if cases != [] {
      CasesEvaluated(cases[1..], b);
      ConditionBindingsAreTests(cases[0].when, b);
      assert forall i :: 0 < i < |cases| ==> cases[1..][i - 1] == cases[i];
    }
  }

  lemma {:induction false} BranchesEvaluated(branches: seq<ParallelBranch>, b: Binding)
    ensures b in BranchInputs(branches) <==> exists i :: 0 <= i < |branches| && b == branches[i].input
    decreases |branches|
  {
    if branches != [] {
      BranchesEvaluated(branches[1..], b);
      assert forall i :: 0 < i < |branches| ==> branches[1..][i - 1] == branches[i];
    }
  }

  /** The bindings the analysis checks are those the node evaluates, for all thirteen kinds. */
  lemma NodeBindingsAreEvaluated(node: Node, b: Binding)
    ensures b in NodeBindings(node) <==> Evaluates(node, b)
  {
    match node
    case Choose(_, cases, _, _) => CasesEvaluated(cases, b);
    case While(_, _, condition, _, _, _) => ConditionBindingsAreTests(condition, b);
    case DoWhile(_, _, condition, _, _, _) => ConditionBindingsAreTests(condition, b);
    case Parallel(branches, _) => BranchesEvaluated(branches, b);
    case _ =>
  }

  /** At some path of something the node evaluates stands a reference to `r`. */
  ghost predicate NodeReads(node: Node, r: Reference) {
    exists b :: Evaluates(node, b) && Reads(b, r)
  }

  /** No path into what the node evaluates has 32 turns or more. */
  ghost predicate Shallow(node: Node) {
    forall b, path :: Evaluates(node, b) && At(b, path).Some? ==> |path| < 32
  }

  lemma DepthWithin(b: Binding)
    ensures Depth(b) <= MAX_DATA_DEPTH <==> forall path :: At(b, path).Some? ==> |path| < 32
  {
    DepthIsLongestPath(b, Depth(b));
  }

  lemma ShallowIff(node: Node)
    ensures Shallow(node) <==> forall b :: b in NodeBindings(node) ==> Depth(b) <= MAX_DATA_DEPTH
  {
    forall b
      ensures b in NodeBindings(node) <==> Evaluates(node, b)
      ensures Depth(b) <= MAX_DATA_DEPTH <==> forall path :: At(b, path).Some? ==> |path| < 32
    {
      NodeBindingsAreEvaluated(node, b);
      DepthWithin(b);
    }
  }

  lemma NodeReadsIff(node: Node, r: Reference)
    ensures NodeReads(node, r) <==> exists b :: b in NodeBindings(node) && r in References(b)
  {
    forall b
      ensures b in NodeBindings(node) && r in References(b) <==> Evaluates(node, b) && Reads(b, r)
    {
      NodeBindingsAreEvaluated(node, b);
      ReferencesAreReads(b, r);
    }
  }

  // ----- what may be read -----

  /** References that need a loop, an iteration or a compensation around them have one. */
  ghost predicate InScope(node: Node, r: Reference, ctx: RegionCtx) {
    && (r in {LoopState, LoopIndex} ==> ctx.inLoop || node.While? || node.DoWhile? || node.Repeat?)
    && (r in {ItemValue, ItemIndex} ==> ctx.inForeach || node.Foreach?)
    && (r in {ForwardInput, ForwardOutput} ==> ctx.inCompensation || (node.Activity? && node.compensation.Some?))
  }

  lemma InScopeIff(node: Node, r: Reference, ctx: RegionCtx)
    requires !r.NodeOutput?
    ensures CheckContext(node, r, ctx).None? <==> InScope(node, r, ctx)
  {
  }

  /** The nodes that leave an output behind when they go on to their next node. */
  ghost predicate Produces(node: Node) {
    || node.Activity? || node.Choose? || node.WaitSignal? || node.While? || node.DoWhile? || node.Repeat?
    || node.Foreach? || node.Parallel? || node.Saga?
  }

  lemma ProducesIff(k: Key, node: Node)
    ensures SuccessOutput(k, node) == if Produces(node) then Some(NodeOutput(k)) else None
  {
  }

  /** The walk leaves the producing node `m` on its next edge. */
  ghost predicate PassesProducer(region: Region, w: seq<Hop>, m: Key) {
    m in region.nodes && Produces(region.nodes[m]) && exists i :: 0 <= i < |w| && w[i].source == m && w[i].edge == Next
  }

  lemma GainIff(region: Region, ctx: RegionCtx, h: Hop, m: Key)
    ensures NodeOutput(m) in Gain(FlowOf(region, ctx), h.source, h.edge) <==>
            h.source == m && h.edge == Next && m in region.nodes && Produces(region.nodes[m])
  {
    if h.source in region.nodes {
      ProducesIff(h.source, region.nodes[h.source]);
    }
  }

  /** An output is available after a walk exactly if the walk has passed the node that produces it. */
  lemma {:induction false} AvailableIffPassed(region: Region, ctx: RegionCtx, w: seq<Hop>, m: Key)
    ensures NodeOutput(m) in WalkAvail(FlowOf(region, ctx), w) <==> PassesProducer(region, w, m)
    decreases |w|
  {
    if w != [] {
      var front := w[..|w| - 1];
      AvailableIffPassed(region, ctx, front, m);
      GainIff(region, ctx, w[|w| - 1], m);
      assert w == front + [w[|w| - 1]];
    }
  }

  /** The edges of a region: every node but Complete and Fail has its next, and a wait may have its timeout. */
  lemma HopsOfRegion(region: Region, h: Hop)
    ensures HasHop(OutgoingOf(region.nodes), h) <==>
            && h.source in region.nodes
            && var node := region.nodes[h.source];
               || (h.edge == Next && !node.Complete? && !node.Fail? && h.target == node.next)
               || (h.edge == Timeout && node.WaitSignal? && node.onTimeout == Some(h.target))
  {
    EdgesOf(region.nodes, h.source);
    if h.source in region.nodes {
      var node := region.nodes[h.source];
      assert Successors(node) == [] || Successors(node) == [(Next, node.next)]
          || (node.WaitSignal? && node.onTimeout.Some? && Successors(node) == [(Next, node.next), (Timeout, node.onTimeout.value)]);
    }
  }

  // ----- the limits on conditions -----

  ghost predicate HasCondition(node: Node, c: Condition) {
    || ((node.While? || node.DoWhile?) && c == node.condition)
    || (node.Choose? && exists i :: 0 <= i < |node.cases| && c == node.cases[i].when)
  }

  /** Every condition of the node has at most 256 conditions inside, itself included. */
  ghost predicate FewOperators(node: Node) {
    forall c, places :: HasCondition(node, c) && AllPlaces(c, places) ==> |places| <= 256
  }

  lemma FewOperatorsIff(node: Node)
    ensures FewOperators(node) <==> forall c :: HasCondition(node, c) ==> OperatorCount(c) <= MAX_CONDITION_OPS
  {
    forall c
      ensures OperatorCount(c) <= MAX_CONDITION_OPS <==> forall places :: AllPlaces(c, places) ==> |places| <= 256
    {
      var all := ConditionPlaces(c);
      forall places | AllPlaces(c, places)
        ensures |places| == OperatorCount(c)
      {
        OperatorsCounted(c, places);
      }
    }
  }

  lemma WithinLimitsIff(node: Node)
    requires Shallow(node)
    ensures WithinLimits(node) <==> FewOperators(node)
  {
    FewOperatorsIff(node);
    if node.WaitSignal? {
      DepthWithin(node.key);
      assert Evaluates(node, node.key);
    } else if node.Choose? {
      assert forall i :: 0 <= i < |node.cases| ==> HasCondition(node, node.cases[i].when);
    } else if node.While? || node.DoWhile? {
      assert HasCondition(node, node.condition);
    }
  }

  // ----- the rule -----

  /** What node `k` reads is in scope, and every output on every walk to `k`. */
  ghost predicate ReadsLawfully(region: Region, ctx: RegionCtx, k: Key)
    requires k in region.nodes
  {
    && (forall r :: NodeReads(region.nodes[k], r) ==> InScope(region.nodes[k], r, ctx))
    && forall m, w :: NodeReads(region.nodes[k], NodeOutput(m)) && IsWalk(OutgoingOf(region.nodes), region.start, w, k) ==>
         PassesProducer(region, w, m)
  }

  /** The rule, from the data: edges lead to nodes without cycles, all nodes are reached, and each reads lawfully. */
  ghost predicate Rule(region: Region, ctx: RegionCtx) {
    && (forall h: Hop :: HasHop(OutgoingOf(region.nodes), h) ==> h.target in region.nodes)
    && region.start in region.nodes
    && AcyclicFrom(OutgoingOf(region.nodes), region.start)
    && forall k :: k in region.nodes ==>
         && Reaches(OutgoingOf(region.nodes), region.start, k)
         && Shallow(region.nodes[k]) && FewOperators(region.nodes[k]) && ReadsLawfully(region, ctx, k)
  }

  lemma TargetsExistIff(region: Region)
    ensures TargetsExist(region.nodes) <==> forall h: Hop :: HasHop(OutgoingOf(region.nodes), h) ==> h.target in region.nodes
  {
    if forall h: Hop :: HasHop(OutgoingOf(region.nodes), h) ==> h.target in region.nodes {
      forall k, e | k in region.nodes && e in Successors(region.nodes[k])
        ensures e.1 in region.nodes
      {
        EdgesOf(region.nodes, k);
        assert HasHop(OutgoingOf(region.nodes), Hop(k, e.0, e.1));
      }
    } else {
      var h: Hop :| HasHop(OutgoingOf(region.nodes), h) && h.target !in region.nodes;
      EdgesOf(region.nodes, h.source);
    }
  }

  lemma MayUseIff(region: Region, ctx: RegionCtx, k: Key, r: Reference)
    requires k in region.nodes
    ensures MayUse(region, ctx, k, r) <==>
            && InScope(region.nodes[k], r, ctx)
            && (r.NodeOutput? ==> forall w :: IsWalk(OutgoingOf(region.nodes), region.start, w, k) ==> PassesProducer(region, w, r.node))
  {
    if r.NodeOutput? {
      forall w
        ensures r in WalkAvail(FlowOf(region, ctx), w) <==> PassesProducer(region, w, r.node)
      {
        AvailableIffPassed(region, ctx, w, r.node);
      }
    } else {
      InScopeIff(region.nodes[k], r, ctx);
    }
  }

  lemma ReadsLawfullyIff(region: Region, ctx: RegionCtx, k: Key)
    requires k in region.nodes
    ensures ReadsLawfully(region, ctx, k) <==> forall r :: NodeReads(region.nodes[k], r) ==> MayUse(region, ctx, k, r)
  {
    forall r
      ensures MayUse(region, ctx, k, r) <==>
              && InScope(region.nodes[k], r, ctx)
              && (r.NodeOutput? ==> forall w :: IsWalk(OutgoingOf(region.nodes), region.start, w, k) ==> PassesProducer(region, w, r.node))
    {
      MayUseIff(region, ctx, k, r);
    }
  }

  lemma NodeValidIff(region: Region, ctx: RegionCtx, k: Key)
    requires k in region.nodes
    ensures NodeValid(region, ctx, k) <==> Shallow(region.nodes[k]) && ReadsLawfully(region, ctx, k)
  {
    ShallowIff(region.nodes[k]);
    ReadsLawfullyIff(region, ctx, k);
    forall r
      ensures NodeReads(region.nodes[k], r) <==> exists b :: b in NodeBindings(region.nodes[k]) && r in References(b)
    {
      NodeReadsIff(region.nodes[k], r);
    }
  }

  lemma RuleNodeIff(region: Region, ctx: RegionCtx, k: Key)
    requires k in region.nodes
    ensures WithinLimits(region.nodes[k]) && NodeValid(region, ctx, k) <==>
            Shallow(region.nodes[k]) && FewOperators(region.nodes[k]) && ReadsLawfully(region, ctx, k)
  {
    NodeValidIff(region, ctx, k);
    if Shallow(region.nodes[k]) {
      WithinLimitsIff(region.nodes[k]);
    }
  }

  /** The regions that are valid are those that follow the rule stated from the data. */
  lemma ValidIffRule(region: Region, ctx: RegionCtx)
    ensures Valid(region, ctx) <==> Rule(region, ctx)
  {
    TargetsExistIff(region);
    forall k | k in region.nodes
      ensures WithinLimits(region.nodes[k]) && NodeValid(region, ctx, k) <==>
              Shallow(region.nodes[k]) && FewOperators(region.nodes[k]) && ReadsLawfully(region, ctx, k)
    {
      RuleNodeIff(region, ctx, k);
    }
  }

  // ----- what the analysis accepts -----

  lemma CheckReferenceIff(node: Node, r: Reference, available: set<Reference>, ctx: RegionCtx)
    ensures CheckReference(node, r, available, ctx).None? <==> InScope(node, r, ctx) && (r.NodeOutput? ==> r in available)
  {
    if !r.NodeOutput? {
      InScopeIff(node, r, ctx);
    }
  }

  /** Every reference that stands anywhere in what the node evaluates is in scope and, if an output, available. */
  ghost predicate ReadsFit(node: Node, available: set<Reference>, ctx: RegionCtx) {
    forall r :: NodeReads(node, r) ==> InScope(node, r, ctx) && (r.NodeOutput? ==> r in available)
  }

  ghost predicate ReferencesPass(node: Node, available: set<Reference>, ctx: RegionCtx) {
    forall b, r :: b in NodeBindings(node) && r in References(b) ==> CheckReference(node, r, available, ctx).None?
  }

  lemma ReadsFitIff(node: Node, available: set<Reference>, ctx: RegionCtx)
    ensures ReadsFit(node, available, ctx) <==> ReferencesPass(node, available, ctx)
  {
    forall r
      ensures NodeReads(node, r) <==> exists b :: b in NodeBindings(node) && r in References(b)
      ensures CheckReference(node, r, available, ctx).None? <==> InScope(node, r, ctx) && (r.NodeOutput? ==> r in available)
    {
      NodeReadsIff(node, r);
      CheckReferenceIff(node, r, available, ctx);
    }
  }

  lemma CheckSplits(node: Node, available: set<Reference>, ctx: RegionCtx)
    ensures CheckBindings(node, available, ctx).None? <==>
            (forall b :: b in NodeBindings(node) ==> Depth(b) <= MAX_DATA_DEPTH) && ReferencesPass(node, available, ctx)
  {
    assert CheckBindings(node, available, ctx).None? <==> forall b :: b in NodeBindings(node) ==> BindingFits(node, b, available, ctx);
  }

  lemma CheckBindingsIff(node: Node, available: set<Reference>, ctx: RegionCtx)
    ensures CheckBindings(node, available, ctx).None? <==> Shallow(node) && ReadsFit(node, available, ctx)
  {
    ShallowIff(node);
    ReadsFitIff(node, available, ctx);
    CheckSplits(node, available, ctx);
  }

  /** What node `k` reads is in scope, and every output in the set it is checked with. */
  ghost predicate ChecksOut(region: Region, ctx: RegionCtx, k: Key)
    requires TargetsExist(region.nodes) && region.start in region.nodes && k in region.nodes && k in Swept(region, ctx).checked
  {
    ReadsFit(region.nodes[k], Swept(region, ctx).checked[k], ctx)
  }

  lemma AcceptedNodeIff(region: Region, ctx: RegionCtx, k: Key)
    requires TargetsExist(region.nodes) && region.start in region.nodes && k in region.nodes && k in Swept(region, ctx).checked
    ensures WithinLimits(region.nodes[k]) && CheckBindings(region.nodes[k], Swept(region, ctx).checked[k], ctx).None? <==>
            Shallow(region.nodes[k]) && FewOperators(region.nodes[k]) && ChecksOut(region, ctx, k)
  {
    CheckBindingsIff(region.nodes[k], Swept(region, ctx).checked[k], ctx);
    if Shallow(region.nodes[k]) {
      WithinLimitsIff(region.nodes[k]);
    }
  }

  /** The graph part of the rule: edges lead to nodes without cycles, and all nodes are reached. */
  ghost predicate Laid(region: Region) {
    && (forall h: Hop :: HasHop(OutgoingOf(region.nodes), h) ==> h.target in region.nodes)
    && region.start in region.nodes
    && AcyclicFrom(OutgoingOf(region.nodes), region.start)
    && forall k :: k in region.nodes ==> Reaches(OutgoingOf(region.nodes), region.start, k)
  }

  lemma LaidSeen(region: Region, ctx: RegionCtx)
    requires Laid(region)
    ensures TargetsExist(region.nodes) && Swept(region, ctx).checked.Keys == region.nodes.Keys
  {
    TargetsExistIff(region);
    ReachableSeen(region, ctx);
  }

  /**
   * A region is accepted exactly if its graph is sound, its bindings and conditions are within the
   * limits, and every reference that stands anywhere in what a node evaluates is in scope and, if it
   * is an output, in the set that node is checked with.
   */
  lemma AcceptedIffReads(region: Region, ctx: RegionCtx)
    ensures Accepted(region, ctx) <==>
            && Laid(region)
            && forall k :: k in region.nodes ==>
                 && Shallow(region.nodes[k]) && FewOperators(region.nodes[k])
                 && (LaidSeen(region, ctx); ChecksOut(region, ctx, k))
  {
    TargetsExistIff(region);
    if Accepted(region, ctx) {
      ReachableSeen(region, ctx);
    }
    if Laid(region) {
      LaidSeen(region, ctx);
      forall k | k in region.nodes
        ensures WithinLimits(region.nodes[k]) && CheckBindings(region.nodes[k], Swept(region, ctx).checked[k], ctx).None? <==>
                Shallow(region.nodes[k]) && FewOperators(region.nodes[k]) && ChecksOut(region, ctx, k)
      {
        AcceptedNodeIff(region, ctx, k);
      }
    }
  }

  lemma AcceptedReads(region: Region, ctx: RegionCtx, k: Key, r: Reference)
    requires Accepted(region, ctx) && k in region.nodes && NodeReads(region.nodes[k], r)
    ensures InScope(region.nodes[k], r, ctx) && k in Swept(region, ctx).checked
    ensures r.NodeOutput? ==> r in Swept(region, ctx).checked[k]
  {
    AcceptedPasses(region, ctx, k);
    CheckBindingsIff(region.nodes[k], Swept(region, ctx).checked[k], ctx);
  }
}
