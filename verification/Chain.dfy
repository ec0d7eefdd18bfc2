/** Regions that are one chain of steps, as the fluent builder makes them. */
module Chain {
  import opened Prelude
  import opened Bindings
  import opened Ir
  import opened Graph
  import opened Availability
  import opened PopOrder
  import opened LateEdges
  import opened RegionAnalysis
  import opened RegionTheorems

  /** A node with a single exit. */
  predicate Exits(node: Node) {
    !Terminal(node) && (node.WaitSignal? ==> node.onTimeout.None?)
  }

  ghost predicate Distinct(keys: seq<Key>) {
    forall i, j :: 0 <= i < j < |keys| ==> keys[i] != keys[j]
  }

  /** The nodes are exactly `keys`, in that order, each pointing at the one after it. */
  ghost predicate Linked(nodes: map<Key, Node>, keys: seq<Key>) {
    && Distinct(keys)
    && (forall k :: k in nodes <==> k in keys)
    && (forall i :: 0 <= i < |keys| - 1 ==> Exits(nodes[keys[i]]) && nodes[keys[i]].next == keys[i + 1])
  }

  /** Some node before place `i` produces `r`. */
  ghost predicate EarlierOutput(nodes: map<Key, Node>, keys: seq<Key>, i: nat, r: Reference) {
    exists j :: 0 <= j < i && j < |keys| && keys[j] in nodes && SuccessOutput(keys[j], nodes[keys[j]]) == Some(r)
  }

  /** The node at place `i` may read `r` in context `ctx`. */
  ghost predicate StepMayRead(nodes: map<Key, Node>, keys: seq<Key>, i: nat, r: Reference, ctx: RegionCtx)
    requires i < |keys| && keys[i] in nodes
  {
    if r.NodeOutput? then EarlierOutput(nodes, keys, i, r) else CheckContext(nodes[keys[i]], r, ctx).None?
  }

  ghost predicate StepFits(nodes: map<Key, Node>, keys: seq<Key>, i: nat, ctx: RegionCtx)
    requires i < |keys| && keys[i] in nodes
  {
    && WithinLimits(nodes[keys[i]])
    && forall b :: b in NodeBindings(nodes[keys[i]]) ==>
         Depth(b) <= MAX_DATA_DEPTH && forall r :: r in References(b) ==> StepMayRead(nodes, keys, i, r, ctx)
  }

  ghost predicate BindingsFit(nodes: map<Key, Node>, keys: seq<Key>, ctx: RegionCtx)
    requires forall k :: k in keys ==> k in nodes
  {
    forall i :: 0 <= i < |keys| ==> StepFits(nodes, keys, i, ctx)
  }

  /** A chain that starts at its first key and ends in a terminal node. */
  ghost predicate CompleteChain(region: Region, keys: seq<Key>) {
    && keys != [] && region.start == keys[0]
    && Linked(region.nodes, keys)
    && Terminal(region.nodes[keys[|keys| - 1]])
  }

  // ----- the graph of a finished chain -----

  lemma StepSuccessors(node: Node)
    ensures Exits(node) ==> Successors(node) == [(Next, node.next)]
    ensures Terminal(node) ==> Successors(node) == []
  {
  }

  lemma KeyIndex(region: Region, keys: seq<Key>, k: Key) returns (i: nat)
    requires CompleteChain(region, keys) && k in region.nodes
    ensures i < |keys| && keys[i] == k
    ensures i < |keys| - 1 ==> Exits(region.nodes[k]) && region.nodes[k].next == keys[i + 1]
    ensures i == |keys| - 1 ==> Terminal(region.nodes[k])
  {
    assert k in keys;
    i :| 0 <= i < |keys| && keys[i] == k;
  }

  lemma ChainHop(region: Region, keys: seq<Key>, h: Hop) returns (i: nat)
    requires CompleteChain(region, keys) && HasHop(OutgoingOf(region.nodes), h)
    ensures i < |keys| - 1 && h == Hop(keys[i], Next, keys[i + 1]) && Exits(region.nodes[keys[i]])
  {
    EdgesOf(region.nodes, h.source);
    i := KeyIndex(region, keys, h.source);
    StepSuccessors(region.nodes[h.source]);
  }

  lemma ChainHopExists(region: Region, keys: seq<Key>, i: nat)
    requires CompleteChain(region, keys) && i < |keys| - 1
    ensures HasHop(OutgoingOf(region.nodes), Hop(keys[i], Next, keys[i + 1]))
  {
    EdgesOf(region.nodes, keys[i]);
    assert keys[i] in region.nodes;
    StepSuccessors(region.nodes[keys[i]]);
  }

  ghost function Heights(keys: seq<Key>, i: nat): map<Key, nat>
    requires i <= |keys|
  {
    if i == 0 then map[] else Heights(keys, i - 1)[keys[i - 1] := i - 1]
  }

  lemma {:induction false} HeightAt(keys: seq<Key>, i: nat, j: nat)
    requires j < i <= |keys| && Distinct(keys)
    ensures keys[j] in Heights(keys, i) && Heights(keys, i)[keys[j]] == j
    decreases i
  {
    if j < i - 1 {
      HeightAt(keys, i - 1, j);
    }
  }

  lemma ChainAcyclic(region: Region, keys: seq<Key>)
    requires CompleteChain(region, keys)
    ensures AcyclicFrom(OutgoingOf(region.nodes), region.start)
  {
    var height := Heights(keys, |keys|);
    forall h: Hop | HasHop(OutgoingOf(region.nodes), h)
      ensures h.source in height && h.target in height && height[h.source] < height[h.target]
    {
      var i := ChainHop(region, keys, h);
      HeightAt(keys, |keys|, i);
      HeightAt(keys, |keys|, i + 1);
    }
    HeightAt(keys, |keys|, 0);
    RisingAcyclic(OutgoingOf(region.nodes), height, region.start);
  }

  lemma {:induction false} ChainReached(region: Region, keys: seq<Key>, i: nat)
    requires CompleteChain(region, keys) && i < |keys|
    ensures Reaches(OutgoingOf(region.nodes), region.start, keys[i])
  {
    var out := OutgoingOf(region.nodes);
    if i == 0 {
      ReachesRefl(out, keys[0]);
    } else {
      ChainReached(region, keys, i - 1);
      ChainHopExists(region, keys, i - 1);
      HopLeads(out, Hop(keys[i - 1], Next, keys[i]));
      ReachesTrans(out, region.start, keys[i - 1], keys[i]);
    }
  }

  lemma ChainShaped(region: Region, keys: seq<Key>, ctx: RegionCtx)
    requires CompleteChain(region, keys) && BindingsFit(region.nodes, keys, ctx)
    ensures WellShaped(region)
  {
    ChainAcyclic(region, keys);
    forall k | k in region.nodes
      ensures WithinLimits(region.nodes[k])
    {
      var i :| 0 <= i < |keys| && keys[i] == k;
      assert StepFits(region.nodes, keys, i, ctx);
    }
    ChainTargets(region, keys);
  }

  lemma ChainTargets(region: Region, keys: seq<Key>)
    requires CompleteChain(region, keys)
    ensures TargetsExist(region.nodes)
  {
    forall k, e | k in region.nodes && e in Successors(region.nodes[k])
      ensures e.1 in region.nodes
    {
      EdgesOf(region.nodes, k);
      var i := ChainHop(region, keys, Hop(k, e.0, e.1));
      assert keys[i + 1] in keys;
    }
  }

  // ----- availability on a chain -----

  lemma StepGain(region: Region, ctx: RegionCtx, k: Key, r: Reference)
    requires k in region.nodes && SuccessOutput(k, region.nodes[k]) == Some(r)
    ensures r in Gain(FlowOf(region, ctx), k, Next)
  {
  }

  lemma LastHop(region: Region, keys: seq<Key>, i: nat, w: seq<Hop>)
    requires CompleteChain(region, keys) && 0 < i < |keys|
    requires IsWalk(OutgoingOf(region.nodes), region.start, w, keys[i])
    ensures w != [] && w[|w| - 1] == Hop(keys[i - 1], Next, keys[i])
  {
    assert keys[0] != keys[i];
    var j := ChainHop(region, keys, w[|w| - 1]);
    assert j + 1 == i;
  }

  /** Every way to place `i` passes all earlier places on their next edges. */
  lemma {:induction false} EarlierOutputAvailable(region: Region, keys: seq<Key>, ctx: RegionCtx, i: nat, j: nat, r: Reference, w: seq<Hop>)
    requires CompleteChain(region, keys) && j < i < |keys|
    requires keys[j] in region.nodes && SuccessOutput(keys[j], region.nodes[keys[j]]) == Some(r)
    requires IsWalk(OutgoingOf(region.nodes), region.start, w, keys[i])
    ensures r in WalkAvail(FlowOf(region, ctx), w)
    decreases i
  {
    LastHop(region, keys, i, w);
    if j == i - 1 {
      StepGain(region, ctx, keys[j], r);
    } else {
      EarlierOutputAvailable(region, keys, ctx, i - 1, j, r, w[..|w| - 1]);
    }
  }

  /** What a way to place `i` has gained comes from earlier places. */
  lemma {:induction false} AvailableIsEarlier(region: Region, keys: seq<Key>, ctx: RegionCtx, i: nat, r: Reference, w: seq<Hop>)
    requires CompleteChain(region, keys) && i < |keys| && r.NodeOutput?
    requires IsWalk(OutgoingOf(region.nodes), region.start, w, keys[i]) && r in WalkAvail(FlowOf(region, ctx), w)
    ensures EarlierOutput(region.nodes, keys, i, r)
    decreases |w|
  {
    if i == 0 {
      OnlyStart(region, keys, w);
    } else {
      LastHop(region, keys, i, w);
      if r in WalkAvail(FlowOf(region, ctx), w[..|w| - 1]) {
        AvailableIsEarlier(region, keys, ctx, i - 1, r, w[..|w| - 1]);
      } else {
        assert SuccessOutput(keys[i - 1], region.nodes[keys[i - 1]]) == Some(r);
      }
    }
  }

  lemma OnlyStart(region: Region, keys: seq<Key>, w: seq<Hop>)
    requires CompleteChain(region, keys) && IsWalk(OutgoingOf(region.nodes), region.start, w, keys[0])
    ensures w == []
  {
    if w != [] {
      var j := ChainHop(region, keys, w[|w| - 1]);
    }
  }

  /** On a chain, available on every way means produced at an earlier place. */
  lemma AvailableIffEarlier(region: Region, keys: seq<Key>, ctx: RegionCtx, i: nat, r: Reference)
    requires CompleteChain(region, keys) && i < |keys| && r.NodeOutput?
    ensures OnEveryWalk(FlowOf(region, ctx), keys[i], r) <==> EarlierOutput(region.nodes, keys, i, r)
  {
    if EarlierOutput(region.nodes, keys, i, r) {
      var j :| 0 <= j < i && keys[j] in region.nodes && SuccessOutput(keys[j], region.nodes[keys[j]]) == Some(r);
      forall w | IsWalk(OutgoingOf(region.nodes), region.start, w, keys[i])
        ensures r in WalkAvail(FlowOf(region, ctx), w)
      {
        EarlierOutputAvailable(region, keys, ctx, i, j, r, w);
      }
    } else {
      ChainReached(region, keys, i);
      var w :| IsWalk(OutgoingOf(region.nodes), region.start, w, keys[i]);
      if r in WalkAvail(FlowOf(region, ctx), w) {
        AvailableIsEarlier(region, keys, ctx, i, r, w);
      }
    }
  }

  lemma MayUseIffMayRead(region: Region, keys: seq<Key>, ctx: RegionCtx, i: nat, r: Reference)
    requires CompleteChain(region, keys) && i < |keys| && keys[i] in region.nodes
    ensures MayUse(region, ctx, keys[i], r) <==> StepMayRead(region.nodes, keys, i, r, ctx)
  {
    if r.NodeOutput? {
      AvailableIffEarlier(region, keys, ctx, i, r);
    }
  }

  lemma StepFitsIffValid(region: Region, keys: seq<Key>, ctx: RegionCtx, i: nat)
    requires CompleteChain(region, keys) && i < |keys| && keys[i] in region.nodes
    ensures StepFits(region.nodes, keys, i, ctx) <==> WithinLimits(region.nodes[keys[i]]) && NodeValid(region, ctx, keys[i])
  {
    forall b, r | b in NodeBindings(region.nodes[keys[i]]) && r in References(b)
      ensures MayUse(region, ctx, keys[i], r) <==> StepMayRead(region.nodes, keys, i, r, ctx)
    {
      MayUseIffMayRead(region, keys, ctx, i, r);
    }
  }

  lemma FittingAccepted(region: Region, keys: seq<Key>, ctx: RegionCtx)
    requires CompleteChain(region, keys) && BindingsFit(region.nodes, keys, ctx)
    ensures Accepted(region, ctx)
  {
    ChainShaped(region, keys, ctx);
    forall k | k in region.nodes
      ensures Reaches(OutgoingOf(region.nodes), region.start, k) && NodeValid(region, ctx, k)
    {
      var i :| 0 <= i < |keys| && keys[i] == k;
      ChainReached(region, keys, i);
      assert StepFits(region.nodes, keys, i, ctx);
      StepFitsIffValid(region, keys, ctx, i);
    }
    ValidIsAccepted(region, ctx);
  }

  lemma NoForks(region: Region, keys: seq<Key>)
    requires CompleteChain(region, keys)
    ensures CrossingsHarmless(OutgoingOf(region.nodes), region.start)
  {
    forall b
      ensures !Fork(OutgoingOf(region.nodes), b)
    {
      EdgesOf(region.nodes, b);
      if b in region.nodes {
        var i := KeyIndex(region, keys, b);
        StepSuccessors(region.nodes[b]);
      }
    }
  }

  lemma AcceptedFits(region: Region, keys: seq<Key>, ctx: RegionCtx)
    requires CompleteChain(region, keys) && Accepted(region, ctx)
    ensures BindingsFit(region.nodes, keys, ctx)
  {
    NoForks(region, keys);
    AcceptedIffValid(region, ctx);
    forall i | 0 <= i < |keys|
      ensures StepFits(region.nodes, keys, i, ctx)
    {
      assert keys[i] in keys;
      StepFitsIffValid(region, keys, ctx, i);
    }
  }

  /** A chain is accepted exactly when each step reads only what its context offers and earlier steps produce. */
  lemma ChainAcceptedIff(region: Region, keys: seq<Key>, ctx: RegionCtx)
    requires CompleteChain(region, keys)
    ensures Accepted(region, ctx) <==> BindingsFit(region.nodes, keys, ctx)
  {
    if Accepted(region, ctx) {
      AcceptedFits(region, keys, ctx);
    } else if BindingsFit(region.nodes, keys, ctx) {
      FittingAccepted(region, keys, ctx);
    }
  }
}
