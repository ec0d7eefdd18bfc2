/** What acceptance of a region guarantees, and where it falls short of the intended rule. */
module RegionTheorems {
  import opened Prelude
  import opened Bindings
  import opened Ir
  import opened Graph
  import opened Availability
  import opened Exactness
  import opened PopOrder
  import opened LateEdges
  import opened RegionAnalysis

  // ----- the intended rule -----

  /** The reference may be used at `k`: in context, and available on every incoming path. */
  ghost predicate MayUse(region: Region, ctx: RegionCtx, k: Key, r: Reference)
    requires k in region.nodes
  {
    if r.NodeOutput? then OnEveryWalk(FlowOf(region, ctx), k, r) else CheckContext(region.nodes[k], r, ctx).None?
  }

  ghost predicate NodeValid(region: Region, ctx: RegionCtx, k: Key)
    requires k in region.nodes
  {
    forall b :: b in NodeBindings(region.nodes[k]) ==>
      Depth(b) <= MAX_DATA_DEPTH && forall r :: r in References(b) ==> MayUse(region, ctx, k, r)
  }

  /** The rule the error messages promise, stated over walks and not over the worklist. */
  ghost predicate Valid(region: Region, ctx: RegionCtx) {
    && WellShaped(region)
    && forall k :: k in region.nodes ==>
         Reaches(OutgoingOf(region.nodes), region.start, k) && NodeValid(region, ctx, k)
  }

  lemma ReachableSeen(region: Region, ctx: RegionCtx)
    requires TargetsExist(region.nodes) && region.start in region.nodes
    ensures Swept(region, ctx).checked.Keys == region.nodes.Keys <==>
            forall k :: k in region.nodes ==> Reaches(OutgoingOf(region.nodes), region.start, k)
  {
    SweptSound(region, ctx);
    forall k
      ensures k in Swept(region, ctx).checked <==> Reaches(OutgoingOf(region.nodes), region.start, k)
    {
      FinalReached(FlowOf(region, ctx), Swept(region, ctx), k);
    }
  }

  lemma ValidNodePasses(region: Region, ctx: RegionCtx, s: Sweep, k: Key)
    requires Sound(FlowOf(region, ctx), s) && k in s.checked && k in region.nodes && NodeValid(region, ctx, k)
    ensures CheckBindings(region.nodes[k], s.checked[k], ctx).None?
  {
    forall b, r | b in NodeBindings(region.nodes[k]) && r in References(b)
      ensures CheckReference(region.nodes[k], r, s.checked[k], ctx).None?
    {
      assert MayUse(region, ctx, k, r);
      RejectionHasWalk(FlowOf(region, ctx), s, k, r);
    }
  }

  /** The analysis never rejects a region that follows the rule. */
  lemma ValidIsAccepted(region: Region, ctx: RegionCtx)
    requires Valid(region, ctx)
    ensures Accepted(region, ctx)
  {
    SweptSound(region, ctx);
    ReachableSeen(region, ctx);
    forall k | k in region.nodes && k in Swept(region, ctx).checked
      ensures CheckBindings(region.nodes[k], Swept(region, ctx).checked[k], ctx).None?
    {
      ValidNodePasses(region, ctx, Swept(region, ctx), k);
    }
  }

  lemma PassingNodeValid(region: Region, ctx: RegionCtx, s: Sweep, k: Key)
    requires Sound(FlowOf(region, ctx), s) && s.pending == [] && SteadyUpTo(FlowOf(region, ctx), s, k)
    requires k in s.checked && k in region.nodes && CheckBindings(region.nodes[k], s.checked[k], ctx).None?
    ensures NodeValid(region, ctx, k)
  {
    forall b, r | b in NodeBindings(region.nodes[k]) && r in References(b)
      ensures MayUse(region, ctx, k, r)
    {
      assert BindingFits(region.nodes[k], b, s.checked[k], ctx);
      assert CheckReference(region.nodes[k], r, s.checked[k], ctx).None?;
      ExactWhenSteady(FlowOf(region, ctx), s, k, r);
    }
    forall b | b in NodeBindings(region.nodes[k])
      ensures Depth(b) <= MAX_DATA_DEPTH
    {
      assert BindingFits(region.nodes[k], b, s.checked[k], ctx);
    }
  }

  /** No node that can read anything loses a reference after its check. */
  ghost predicate ReadersKeep(region: Region, ctx: RegionCtx)
    requires TargetsExist(region.nodes) && region.start in region.nodes
  {
    var s := Swept(region, ctx);
    forall k :: k in region.nodes && !region.nodes[k].Fail? && k in s.checked && k in s.at ==> s.at[k] == s.checked[k]
  }

  lemma ReadersSteady(region: Region, ctx: RegionCtx, k: Key)
    requires TargetsExist(region.nodes) && region.start in region.nodes && ReadersKeep(region, ctx)
    requires k in region.nodes && !region.nodes[k].Fail?
    ensures SteadyUpTo(FlowOf(region, ctx), Swept(region, ctx), k)
  {
    var f, s := FlowOf(region, ctx), Swept(region, ctx);
    forall j | j in s.checked && j in s.at && (j == k || Edges(f.out, j) != [])
      ensures s.at[j] == s.checked[j]
    {
      EdgesOf(region.nodes, j);
    }
  }

  lemma AcceptedPasses(region: Region, ctx: RegionCtx, k: Key)
    requires Accepted(region, ctx) && k in region.nodes
    ensures k in Swept(region, ctx).checked && CheckBindings(region.nodes[k], Swept(region, ctx).checked[k], ctx).None?
  {
  }

  lemma KeepingNodeValid(region: Region, ctx: RegionCtx, k: Key)
    requires TargetsExist(region.nodes) && region.start in region.nodes && ReadersKeep(region, ctx)
    requires k in region.nodes && k in Swept(region, ctx).checked
    requires CheckBindings(region.nodes[k], Swept(region, ctx).checked[k], ctx).None?
    ensures NodeValid(region, ctx, k)
  {
    if region.nodes[k].Fail? {
      assert NodeBindings(region.nodes[k]) == [];
    } else {
      SweptSound(region, ctx);
      ReadersSteady(region, ctx, k);
      PassingNodeValid(region, ctx, Swept(region, ctx), k);
    }
  }

  lemma KeepingIsValid(region: Region, ctx: RegionCtx)
    requires Accepted(region, ctx) && ReadersKeep(region, ctx)
    ensures Valid(region, ctx)
  {
    ReachableSeen(region, ctx);
    forall k | k in region.nodes
      ensures NodeValid(region, ctx, k)
    {
      AcceptedPasses(region, ctx, k);
      KeepingNodeValid(region, ctx, k);
    }
  }

  /**
   * The analysis checks every node against its true availability exactly when no edge takes a
   * reference away from a node that was checked already. If no node that can read loses one, it
   * accepts exactly the regions that follow the rule.
   */
  lemma AcceptedIffValidUnlessShrunk(region: Region, ctx: RegionCtx)
    requires TargetsExist(region.nodes) && region.start in region.nodes
    ensures NeverShrunk(Swept(region, ctx)) <==> Exact(FlowOf(region, ctx), Swept(region, ctx))
    ensures ReadersKeep(region, ctx) ==> (Accepted(region, ctx) <==> Valid(region, ctx))
  {
    SweptSound(region, ctx);
    ExactIffNeverShrunk(FlowOf(region, ctx), Swept(region, ctx));
    if Valid(region, ctx) {
      ValidIsAccepted(region, ctx);
    } else if Accepted(region, ctx) && ReadersKeep(region, ctx) {
      KeepingIsValid(region, ctx);
    }
  }

  lemma RegionPorts(nodes: map<Key, Node>)
    ensures TwoPorted(OutgoingOf(nodes)) && TimeoutSecond(OutgoingOf(nodes))
  {
    forall k
      ensures |Edges(OutgoingOf(nodes), k)| <= 2
      ensures Fork(OutgoingOf(nodes), k) ==> Edges(OutgoingOf(nodes), k)[1].0 == Timeout
    {
      EdgesOf(nodes, k);
    }
  }

  lemma HarmlessIsExact(region: Region, ctx: RegionCtx)
    requires WellShaped(region) && CrossingsHarmless(OutgoingOf(region.nodes), region.start)
    ensures Exact(FlowOf(region, ctx), Swept(region, ctx)) && ReadersKeep(region, ctx)
  {
    TargetsClosed(region.nodes);
    RegionPorts(region.nodes);
    HarmlessNeverShrinks(FlowOf(region, ctx), region.nodes.Keys);
    SweptSound(region, ctx);
    ExactIffNeverShrunk(FlowOf(region, ctx), Swept(region, ctx));
  }

  /**
   * Where every edge from the next side of a timed wait into its timeout side ends at the timeout
   * port and starts at a node entered only through the wait, the analysis accepts exactly the
   * regions that follow the rule. Waits whose sides rejoin at the next port, or never, are such.
   */
  lemma AcceptedIffValid(region: Region, ctx: RegionCtx)
    requires CrossingsHarmless(OutgoingOf(region.nodes), region.start)
    ensures Accepted(region, ctx) <==> Valid(region, ctx)
  {
    if WellShaped(region) {
      HarmlessIsExact(region, ctx);
      AcceptedIffValidUnlessShrunk(region, ctx);
    }
  }

  // ----- every run of an accepted region ends -----

  lemma AcceptedWalkBound(region: Region, ctx: RegionCtx, w: seq<Hop>, k: Key)
    requires Accepted(region, ctx) && IsWalk(OutgoingOf(region.nodes), region.start, w, k)
    ensures k in region.nodes && |w| <= |region.nodes.Keys| - 1
  {
    TargetsClosed(region.nodes);
    ClosedWalk(OutgoingOf(region.nodes), region.nodes.Keys, region.start, w, k);
    AcyclicWalkBound(OutgoingOf(region.nodes), region.nodes.Keys, region.start, w, k);
  }

  lemma NextHop(region: Region, k: Key) returns (h: Hop)
    requires k in region.nodes && !Terminal(region.nodes[k])
    ensures h.source == k && HasHop(OutgoingOf(region.nodes), h)
  {
    var e := Successors(region.nodes[k])[0];
    h := Hop(k, e.0, e.1);
    EdgesOf(region.nodes, k);
  }

  /** From wherever a walk has come, a terminal node lies ahead. */
  lemma {:induction false} TerminalAhead(region: Region, ctx: RegionCtx, w: seq<Hop>, k: Key) returns (v: seq<Hop>, t: Key)
    requires Accepted(region, ctx) && IsWalk(OutgoingOf(region.nodes), region.start, w, k)
    ensures t in region.nodes && Terminal(region.nodes[t]) && IsWalk(OutgoingOf(region.nodes), k, v, t)
    decreases |region.nodes.Keys| - |w|
  {
    AcceptedWalkBound(region, ctx, w, k);
    if Terminal(region.nodes[k]) {
      v, t := [], k;
    } else {
      var h := NextHop(region, k);
      v, t := AheadOf(region, ctx, w, h);
    }
  }

  lemma {:induction false} AheadOf(region: Region, ctx: RegionCtx, w: seq<Hop>, h: Hop) returns (v: seq<Hop>, t: Key)
    requires Accepted(region, ctx) && IsWalk(OutgoingOf(region.nodes), region.start, w, h.source)
    requires HasHop(OutgoingOf(region.nodes), h) && |w| < |region.nodes.Keys|
    ensures t in region.nodes && Terminal(region.nodes[t]) && IsWalk(OutgoingOf(region.nodes), h.source, v, t)
    decreases |region.nodes.Keys| - |w|, 0
  {
    var out := OutgoingOf(region.nodes);
    WalkSnoc(out, region.start, w, h);
    var rest;
    rest, t := TerminalAhead(region, ctx, w + [h], h.target);
    assert IsWalk(out, h.source, [], h.source);
    WalkSnoc(out, h.source, [], h);
    WalkConcat(out, h.source, [] + [h], h.target, rest, t);
    v := [] + [h] + rest;
  }

  /** Some walk from the start to `k` goes on to a terminal node. */
  ghost predicate EndsAfter(region: Region, k: Key) {
    exists v, t :: t in region.nodes && Terminal(region.nodes[t]) && IsWalk(OutgoingOf(region.nodes), k, v, t)
  }

  /**
   * In an accepted region every walk from the start has at most one hop fewer than there are
   * nodes and can be carried on to a terminal node.
   */
  lemma AcceptedWalksEnd(region: Region, ctx: RegionCtx, w: seq<Hop>, k: Key)
    requires Accepted(region, ctx) && IsWalk(OutgoingOf(region.nodes), region.start, w, k)
    ensures k in region.nodes && |w| <= |region.nodes.Keys| - 1 && EndsAfter(region, k)
  {
    AcceptedWalkBound(region, ctx, w, k);
    var v, t := TerminalAhead(region, ctx, w, k);
  }

  /** Every node of an accepted region lies on a walk from the start to a terminal node. */
  lemma AcceptedNodesUsed(region: Region, ctx: RegionCtx, k: Key)
    requires Accepted(region, ctx) && k in region.nodes
    ensures Reaches(OutgoingOf(region.nodes), region.start, k) && EndsAfter(region, k)
  {
    ReachableSeen(region, ctx);
    var w :| IsWalk(OutgoingOf(region.nodes), region.start, w, k);
    AcceptedWalksEnd(region, ctx, w, k);
  }

  /** No node of an accepted region still points at itself. */
  lemma AcceptedHasNoSelfLoop(region: Region, ctx: RegionCtx, k: Key)
    requires Accepted(region, ctx) && k in region.nodes && !Terminal(region.nodes[k])
    ensures region.nodes[k].next != k
  {
    var out := OutgoingOf(region.nodes);
    EdgesOf(region.nodes, k);
    var h := Hop(k, Next, region.nodes[k].next);
    assert Successors(region.nodes[k])[0] == (Next, region.nodes[k].next);
    HopLeads(out, h);
    ReachableSeen(region, ctx);
  }
}
