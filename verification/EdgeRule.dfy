/**
 * The exact reach of the region analysis, read off the edges. A walk rises if each of its hops goes
 * to a node that comes later in the order of first walks; the analysis looks at rising walks only.
 */
module EdgeRule {
  import opened Prelude
  import opened Bindings
  import opened Ir
  import opened Graph
  import opened Availability
  import opened Exactness
  import opened PopOrder
  import opened FirstWalks
  import opened RegionAnalysis
  import opened RegionTheorems
  import opened Skeletons

  ghost predicate RisingWalk(f: Flow, w: seq<Hop>) {
    forall i :: 0 <= i < |w| ==> Earlier(f.out, f.start, w[i].source, w[i].target)
  }

  ghost predicate OnEveryRisingWalk(f: Flow, k: Key, r: Reference) {
    forall w :: IsWalk(f.out, f.start, w, k) && RisingWalk(f, w) ==> r in WalkAvail(f, w)
  }

  lemma {:induction false} HopsOnWalk(g: Outgoing, a: Key, w: seq<Hop>, b: Key, i: nat)
    requires IsWalk(g, a, w, b) && i < |w|
    ensures HasHop(g, w[i]) && Reaches(g, a, w[i].source) && Reaches(g, a, w[i].target)
    decreases |w|
  {
    if i == |w| - 1 {
      assert IsWalk(g, a, w[..|w| - 1], w[i].source);
    } else {
      HopsOnWalk(g, a, w[..|w| - 1], w[|w| - 1].source, i);
    }
  }

  /** The hops that go up in pop order are those that go up in the order of first walks. */
  lemma HopRises(f: Flow, universe: set<Key>, h: Hop)
    requires Closed(f.out, universe) && f.start in universe && Ported(f.out) && AcyclicFrom(f.out, f.start)
    requires HasHop(f.out, h) && Reaches(f.out, f.start, h.source) && Reaches(f.out, f.start, h.target)
    ensures var rank := Final(f, universe).rank;
            && h.source in rank && h.target in rank
            && (rank[h.source] < rank[h.target] <==> Earlier(f.out, f.start, h.source, h.target))
  {
    HopLeads(f.out, h);
    PopOrderIsEarlier(f, universe, h.source, h.target);
  }

  lemma IncreasingIffRising(f: Flow, universe: set<Key>, w: seq<Hop>, k: Key)
    requires Closed(f.out, universe) && f.start in universe && Ported(f.out) && AcyclicFrom(f.out, f.start)
    requires IsWalk(f.out, f.start, w, k)
    ensures Increasing(Final(f, universe).rank, w) <==> RisingWalk(f, w)
  {
    forall i | 0 <= i < |w|
      ensures var rank := Final(f, universe).rank;
              && w[i].source in rank && w[i].target in rank
              && (rank[w[i].source] < rank[w[i].target] <==> Earlier(f.out, f.start, w[i].source, w[i].target))
    {
      HopsOnWalk(f.out, f.start, w, k, i);
      HopRises(f, universe, w[i]);
    }
  }

  /** A node is checked with exactly the references on all rising walks to it. */
  lemma CheckedIsRisingMeet(f: Flow, universe: set<Key>, k: Key, r: Reference)
    requires Closed(f.out, universe) && f.start in universe && Ported(f.out) && AcyclicFrom(f.out, f.start)
    requires k in Final(f, universe).checked
    ensures r in Final(f, universe).checked[k] <==> OnEveryRisingWalk(f, k, r)
  {
    var s := Final(f, universe);
    InitialSound(f);
    ExploreSound(f, universe, Initial(f));
    CheckedIsIncreasingMeet(f, s, k, r);
    forall w | IsWalk(f.out, f.start, w, k)
      ensures Increasing(s.rank, w) <==> RisingWalk(f, w)
    {
      IncreasingIffRising(f, universe, w, k);
    }
  }

  lemma RegionPorted(nodes: map<Key, Node>)
    ensures Ported(OutgoingOf(nodes))
  {
    RegionPorts(nodes);
    forall b | Fork(OutgoingOf(nodes), b)
      ensures Edges(OutgoingOf(nodes), b)[0].0 == Next
    {
      EdgesOf(nodes, b);
    }
  }

  lemma SweptIsRisingMeet(region: Region, ctx: RegionCtx, k: Key, r: Reference)
    requires TargetsExist(region.nodes) && region.start in region.nodes && AcyclicFrom(OutgoingOf(region.nodes), region.start)
    requires k in Swept(region, ctx).checked
    ensures r in Swept(region, ctx).checked[k] <==> OnEveryRisingWalk(FlowOf(region, ctx), k, r)
  {
    TargetsClosed(region.nodes);
    RegionPorted(region.nodes);
    CheckedIsRisingMeet(FlowOf(region, ctx), region.nodes.Keys, k, r);
  }

  /** At every node that can read, what is on all rising walks is on all walks. */
  ghost predicate RisingWalksSuffice(region: Region, ctx: RegionCtx) {
    forall k, r :: k in region.nodes && !region.nodes[k].Fail? && OnEveryRisingWalk(FlowOf(region, ctx), k, r) ==>
      OnEveryWalk(FlowOf(region, ctx), k, r)
  }

  lemma KeepingSuffices(region: Region, ctx: RegionCtx, k: Key, r: Reference)
    requires Traversable(region) && ReadersKeep(region, ctx) && k in region.nodes && !region.nodes[k].Fail?
    requires OnEveryRisingWalk(FlowOf(region, ctx), k, r)
    ensures OnEveryWalk(FlowOf(region, ctx), k, r)
  {
    SweptSound(region, ctx);
    ReachableSeen(region, ctx);
    SweptIsRisingMeet(region, ctx, k, r);
    ReadersSteady(region, ctx, k);
    ExactWhenSteady(FlowOf(region, ctx), Swept(region, ctx), k, r);
  }

  lemma SufficientKeeps(region: Region, ctx: RegionCtx)
    requires Traversable(region) && RisingWalksSuffice(region, ctx)
    ensures ReadersKeep(region, ctx)
  {
    if !ReadersKeep(region, ctx) {
      var k, r := SomeShrinks(region, ctx);
      ShrinksOutput(region, ctx, k, r);
      SweptIsRisingMeet(region, ctx, k, r);
    }
  }

  /** No reader loses a reference if and only if the rising walks suffice: a condition on edges and outputs alone. */
  lemma ReadersKeepIffRisingSuffice(region: Region, ctx: RegionCtx)
    requires Traversable(region)
    ensures ReadersKeep(region, ctx) <==> RisingWalksSuffice(region, ctx)
  {
    if ReadersKeep(region, ctx) {
      forall k, r | k in region.nodes && !region.nodes[k].Fail? && OnEveryRisingWalk(FlowOf(region, ctx), k, r)
        ensures OnEveryWalk(FlowOf(region, ctx), k, r)
      {
        KeepingSuffices(region, ctx, k, r);
      }
    }
    if RisingWalksSuffice(region, ctx) {
      SufficientKeeps(region, ctx);
    }
  }

  /**
   * The analysis accepts no rule-breaking region with this skeleton if and only if the skeleton cannot
   * be walked through, or at every node that can read the rising walks suffice.
   */
  lemma NeverMisledIffRisingSuffice(region: Region, ctx: RegionCtx)
    requires forall k :: k in region.nodes && region.nodes[k].Parallel? ==> region.nodes[k].branches != []
    ensures NeverMisled(region, ctx) <==> (Traversable(region) ==> RisingWalksSuffice(region, ctx))
  {
    NeverMisledIffReadersKeep(region, ctx);
    if Traversable(region) {
      ReadersKeepIffRisingSuffice(region, ctx);
    }
  }
}
