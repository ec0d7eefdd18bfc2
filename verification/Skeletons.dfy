/**
 * Regions that differ only in what their nodes read. They have the same edges and outputs, so the
 * worklist runs alike on all of them; whether one that breaks the rule slips through depends on
 * the skeleton alone.
 */
module Skeletons {
  import opened Prelude
  import opened Bindings
  import opened Ir
  import opened Graph
  import opened Availability
  import opened Exactness
  import opened RegionAnalysis
  import opened RegionTheorems

  const NOTHING := Literal("null")

  function StrippedCompensation(c: Option<Compensation>): Option<Compensation> {
    match c
    case Some(CompensateWith(activity, _)) => Some(CompensateWith(activity, NOTHING))
    case _ => c
  }

  function StrippedCases(cases: seq<ChooseCase>): seq<ChooseCase> {
    seq(|cases|, i requires 0 <= i < |cases| => cases[i].(when := Exists(NOTHING)))
  }

  function StrippedBranches(branches: seq<ParallelBranch>): seq<ParallelBranch> {
    seq(|branches|, i requires 0 <= i < |branches| => branches[i].(input := NOTHING))
  }

  /** `node` with a literal in place of all it reads. */
  function Stripped(node: Node): Node {
    match node
    case Activity(activity, _, compensation, next) => Activity(activity, NOTHING, StrippedCompensation(compensation), next)
    case Choose(_, cases, default, next) => Choose(NOTHING, StrippedCases(cases), default, next)
    case Delay(_, next) => Delay(NOTHING, next)
    case WaitUntil(_, next) => WaitUntil(NOTHING, next)
    case WaitSignal(signal, _, timeoutMs, next, onTimeout) => WaitSignal(signal, NOTHING, timeoutMs, next, onTimeout)
    case Complete(_) => Complete(NOTHING)
    case Fail(_, _) => node
    case While(_, schema, _, max, body, next) => While(NOTHING, schema, Exists(NOTHING), max, body, next)
    case DoWhile(_, schema, _, max, body, next) => DoWhile(NOTHING, schema, Exists(NOTHING), max, body, next)
    case Repeat(_, _, schema, max, body, next) => Repeat(NOTHING, NOTHING, schema, max, body, next)
    case Foreach(_, schema, max, concurrency, body, next) => Foreach(NOTHING, schema, max, concurrency, body, next)
    case Parallel(branches, next) => Parallel(StrippedBranches(branches), next)
    case Saga(_, body, next) => Saga(NOTHING, body, next)
  }

  /** Stripped, except that its first binding reads `r`. */
  function Reading(node: Node, r: Reference): Node {
    match Stripped(node)
    case Activity(activity, _, compensation, next) => Activity(activity, FromRef(r), compensation, next)
    case Choose(_, cases, default, next) => Choose(FromRef(r), cases, default, next)
    case Delay(_, next) => Delay(FromRef(r), next)
    case WaitUntil(_, next) => WaitUntil(FromRef(r), next)
    case WaitSignal(signal, _, timeoutMs, next, onTimeout) => WaitSignal(signal, FromRef(r), timeoutMs, next, onTimeout)
    case Complete(_) => Complete(FromRef(r))
    case Fail(_, _) => node
    case While(_, schema, condition, max, body, next) => While(FromRef(r), schema, condition, max, body, next)
    case DoWhile(_, schema, condition, max, body, next) => DoWhile(FromRef(r), schema, condition, max, body, next)
    case Repeat(_, state, schema, max, body, next) => Repeat(FromRef(r), state, schema, max, body, next)
    case Foreach(_, schema, max, concurrency, body, next) => Foreach(FromRef(r), schema, max, concurrency, body, next)
    case Parallel(branches, next) =>
      Parallel(if branches == [] then [] else branches[0 := branches[0].(input := FromRef(r))], next)
    case Saga(_, body, next) => Saga(FromRef(r), body, next)
  }

  ghost predicate SameSkeleton(a: Region, b: Region) {
    && a.(nodes := map[]) == b.(nodes := map[])
    && a.nodes.Keys == b.nodes.Keys
    && forall k :: k in a.nodes && k in b.nodes ==> Stripped(a.nodes[k]) == Stripped(b.nodes[k])
  }

  // ----- the worklist sees only the skeleton -----

  lemma StrippedAlike(k: Key, node: Node)
    ensures Successors(Stripped(node)) == Successors(node) && SuccessOutput(k, Stripped(node)) == SuccessOutput(k, node)
    ensures Stripped(node).Fail? <==> node.Fail?
  {
  }

  lemma SameNode(k: Key, a: Node, b: Node)
    requires Stripped(a) == Stripped(b)
    ensures Successors(a) == Successors(b) && SuccessOutput(k, a) == SuccessOutput(k, b) && (a.Fail? <==> b.Fail?)
  {
    StrippedAlike(k, a);
    StrippedAlike(k, b);
  }

  lemma SameEdges(a: Region, b: Region)
    requires SameSkeleton(a, b)
    ensures OutgoingOf(a.nodes) == OutgoingOf(b.nodes) && (TargetsExist(a.nodes) <==> TargetsExist(b.nodes))
  {
    forall k | k in a.nodes
      ensures Successors(a.nodes[k]) == Successors(b.nodes[k])
    {
      SameNode(k, a.nodes[k], b.nodes[k]);
    }
  }

  lemma SameOutputs(a: Region, b: Region)
    requires SameSkeleton(a, b)
    ensures OutputsOf(a.nodes) == OutputsOf(b.nodes)
  {
    forall k | k in a.nodes
      ensures SuccessOutput(k, a.nodes[k]) == SuccessOutput(k, b.nodes[k])
    {
      SameNode(k, a.nodes[k], b.nodes[k]);
    }
  }

  lemma SameFlow(a: Region, b: Region, ctx: RegionCtx)
    requires SameSkeleton(a, b)
    ensures FlowOf(a, ctx) == FlowOf(b, ctx) && (TargetsExist(a.nodes) <==> TargetsExist(b.nodes))
  {
    SameEdges(a, b);
    SameOutputs(a, b);
  }

  // ----- literals always pass -----

  ghost predicate ReadsOnly(bs: seq<Binding>, r: Reference) {
    forall b :: b in bs ==> b == NOTHING || b == FromRef(r)
  }

  lemma {:induction false} StrippedCasesRead(cases: seq<ChooseCase>, r: Reference)
    requires forall i :: 0 <= i < |cases| ==> cases[i].when == Exists(NOTHING)
    ensures ReadsOnly(CasesBindings(cases), r)
  {
    if cases != [] {
      StrippedCasesRead(cases[1..], r);
    }
  }

  lemma {:induction false} BranchesRead(branches: seq<ParallelBranch>, r: Reference)
    requires forall i :: 0 <= i < |branches| ==> branches[i].input == NOTHING || branches[i].input == FromRef(r)
    ensures ReadsOnly(BranchInputs(branches), r)
  {
    if branches != [] {
      BranchesRead(branches[1..], r);
    }
  }

  lemma ReadingReads(node: Node, r: Reference)
    ensures WithinLimits(Reading(node, r)) && ReadsOnly(NodeBindings(Reading(node, r)), r)
    ensures !node.Fail? && !(node.Parallel? && node.branches == []) ==> FromRef(r) in NodeBindings(Reading(node, r))
  {
    if node.Choose? {
      StrippedCasesRead(StrippedCases(node.cases), r);
    } else if node.Parallel? {
      BranchesRead(Reading(node, r).branches, r);
    }
  }

  lemma ReadingSkeleton(node: Node, r: Reference)
    ensures Stripped(Reading(node, r)) == Stripped(node)
  {
    if node.Choose? {
      assert StrippedCases(StrippedCases(node.cases)) == StrippedCases(node.cases);
    } else if node.Parallel? {
      assert StrippedBranches(Reading(node, r).branches) == StrippedBranches(node.branches);
    }
  }

  lemma ReadingPasses(node: Node, r: Reference, available: set<Reference>, ctx: RegionCtx)
    requires r == ScopeInput || (r.NodeOutput? && r in available)
    ensures CheckBindings(Reading(node, r), available, ctx).None?
  {
    ReadingReads(node, r);
    forall b | b in NodeBindings(Reading(node, r))
      ensures BindingFits(Reading(node, r), b, available, ctx)
    {
      assert b == NOTHING || b == FromRef(r);
    }
  }

  // ----- one reader, the rest reads the scope's input -----

  function Rebound(region: Region, k: Key, r: Reference): Region {
    region.(nodes := map j | j in region.nodes :: Reading(region.nodes[j], if j == k then r else ScopeInput))
  }

  lemma ReboundSkeleton(region: Region, k: Key, r: Reference)
    ensures SameSkeleton(region, Rebound(region, k, r))
  {
    forall j | j in region.nodes
      ensures Stripped(region.nodes[j]) == Stripped(Rebound(region, k, r).nodes[j])
    {
      ReadingSkeleton(region.nodes[j], if j == k then r else ScopeInput);
    }
  }

  /** What acceptance asks of the skeleton. */
  ghost predicate Traversable(region: Region) {
    && TargetsExist(region.nodes) && region.start in region.nodes
    && AcyclicFrom(OutgoingOf(region.nodes), region.start)
    && forall k :: k in region.nodes ==> Reaches(OutgoingOf(region.nodes), region.start, k)
  }

  lemma AcceptedTraversable(region: Region, other: Region, ctx: RegionCtx)
    requires SameSkeleton(region, other) && Accepted(other, ctx)
    ensures Traversable(region) && Swept(region, ctx) == Swept(other, ctx)
  {
    SameFlow(region, other, ctx);
    ReachableSeen(other, ctx);
  }

  lemma ReboundAccepted(region: Region, ctx: RegionCtx, k: Key, r: Reference)
    requires Traversable(region) && k in Swept(region, ctx).checked && r in Swept(region, ctx).checked[k] && r.NodeOutput?
    ensures Accepted(Rebound(region, k, r), ctx) && Swept(Rebound(region, k, r), ctx) == Swept(region, ctx)
  {
    var other := Rebound(region, k, r);
    ReboundSkeleton(region, k, r);
    SameFlow(region, other, ctx);
    ReachableSeen(region, ctx);
    forall j | j in other.nodes
      ensures WithinLimits(other.nodes[j])
      ensures CheckBindings(other.nodes[j], Swept(region, ctx).checked[j], ctx).None?
    {
      ReadingReads(region.nodes[j], if j == k then r else ScopeInput);
      ReadingPasses(region.nodes[j], if j == k then r else ScopeInput, Swept(region, ctx).checked[j], ctx);
    }
  }

  lemma ReboundInvalid(region: Region, ctx: RegionCtx, k: Key, r: Reference)
    requires TargetsExist(region.nodes) && region.start in region.nodes && k in region.nodes && r.NodeOutput?
    requires !region.nodes[k].Fail? && !(region.nodes[k].Parallel? && region.nodes[k].branches == [])
    requires !OnEveryWalk(FlowOf(region, ctx), k, r)
    ensures !Valid(Rebound(region, k, r), ctx)
  {
    var other := Rebound(region, k, r);
    ReboundSkeleton(region, k, r);
    SameFlow(region, other, ctx);
    ReadingReads(region.nodes[k], r);
    assert FromRef(r) in NodeBindings(other.nodes[k]) && r in References(FromRef(r));
    assert !MayUse(other, ctx, k, r);
    assert !NodeValid(other, ctx, k);
  }

  // ----- what shrinks is a node's output -----

  ghost predicate GainsOutputs(f: Flow) {
    forall k, r :: k in f.gain && r in f.gain[k] ==> r.NodeOutput?
  }

  lemma CheckedFrom(f: Flow, s: Sweep, k: Key, r: Reference) returns (h: Hop)
    requires Sound(f, s) && k in s.checked && k != f.start && r in s.checked[k]
    ensures h.source in s.checked && s.rank[h.source] < s.rank[k]
    ensures r in s.checked[h.source] || r in Gain(f, h.source, h.edge)
  {
    assert Entered(f, s.rank, k, s.rank[k]);
    h :| HasHop(f.out, h) && h.target == k && h.source in s.rank && s.rank[h.source] < s.rank[k];
    CheckedMeetsAt(f, s, k, r);
  }

  lemma CheckedAtStart(f: Flow, s: Sweep, r: Reference)
    requires Sound(f, s) && f.start in s.checked && r in s.checked[f.start]
    ensures r in f.base
  {
    CheckedMeetsAt(f, s, f.start, r);
  }

  lemma {:induction false} CheckedOrigin(f: Flow, s: Sweep, k: Key, r: Reference)
    requires GainsOutputs(f) && Sound(f, s) && k in s.checked && r in s.checked[k]
    ensures r.NodeOutput? || r in f.base
    decreases s.rank[k]
  {
    if k == f.start {
      CheckedAtStart(f, s, r);
    } else {
      var h := CheckedFrom(f, s, k, r);
      if r in s.checked[h.source] {
        CheckedOrigin(f, s, h.source, r);
      }
    }
  }

  lemma {:induction false} BaseOnWalk(f: Flow, w: seq<Hop>)
    ensures f.base <= WalkAvail(f, w)
    decreases |w|
  {
    if w != [] {
      BaseOnWalk(f, w[..|w| - 1]);
    }
  }

  /** A node that can read and was checked with more than it has in the end. */
  ghost predicate Shrinks(region: Region, ctx: RegionCtx, k: Key, r: Reference)
    requires TargetsExist(region.nodes) && region.start in region.nodes
  {
    var s := Swept(region, ctx);
    k in region.nodes && !region.nodes[k].Fail? && k in s.checked && k in s.at && r in s.checked[k] && r !in s.at[k]
  }

  lemma ShrunkOutput(f: Flow, s: Sweep, k: Key, r: Reference)
    requires GainsOutputs(f) && Sound(f, s) && k in s.checked && k in s.at && r in s.checked[k] && r !in s.at[k]
    ensures r.NodeOutput? && !OnEveryWalk(f, k, r)
  {
    var w := MissingAtWalk(f, s, k, r);
    BaseOnWalk(f, w);
    CheckedOrigin(f, s, k, r);
  }

  lemma FlowGainsOutputs(region: Region, ctx: RegionCtx)
    ensures GainsOutputs(FlowOf(region, ctx))
  {
  }

  lemma ShrinksOutput(region: Region, ctx: RegionCtx, k: Key, r: Reference)
    requires TargetsExist(region.nodes) && region.start in region.nodes && Shrinks(region, ctx, k, r)
    ensures r.NodeOutput? && !OnEveryWalk(FlowOf(region, ctx), k, r)
  {
    SweptSound(region, ctx);
    FlowGainsOutputs(region, ctx);
    ShrunkOutput(FlowOf(region, ctx), Swept(region, ctx), k, r);
  }

  lemma ShrinkingMisleads(region: Region, ctx: RegionCtx, k: Key, r: Reference)
    requires Traversable(region) && Shrinks(region, ctx, k, r)
    requires !(region.nodes[k].Parallel? && region.nodes[k].branches == [])
    ensures SameSkeleton(region, Rebound(region, k, r))
    ensures Accepted(Rebound(region, k, r), ctx) && !Valid(Rebound(region, k, r), ctx)
  {
    ShrinksOutput(region, ctx, k, r);
    ReboundSkeleton(region, k, r);
    ReboundAccepted(region, ctx, k, r);
    ReboundInvalid(region, ctx, k, r);
  }

  lemma ShrunkBy(f: Flow, s: Sweep, k: Key) returns (r: Reference)
    requires Sound(f, s) && k in s.checked && k in s.at && s.at[k] != s.checked[k]
    ensures r in s.checked[k] && r !in s.at[k]
  {
    AtInsideChecked(f, s, k);
    r :| r in s.checked[k] && r !in s.at[k];
  }

  lemma SomeShrinks(region: Region, ctx: RegionCtx) returns (k: Key, r: Reference)
    requires TargetsExist(region.nodes) && region.start in region.nodes && !ReadersKeep(region, ctx)
    ensures Shrinks(region, ctx, k, r)
  {
    var s := Swept(region, ctx);
    k :| k in region.nodes && !region.nodes[k].Fail? && k in s.checked && k in s.at && s.at[k] != s.checked[k];
    SweptSound(region, ctx);
    r := ShrunkBy(FlowOf(region, ctx), s, k);
  }

  // ----- the theorem -----

  /** Whatever the nodes read, the analysis accepts only what follows the rule. */
  ghost predicate NeverMisled(region: Region, ctx: RegionCtx) {
    forall other :: SameSkeleton(region, other) && Accepted(other, ctx) ==> Valid(other, ctx)
  }

  lemma SameReadersKeep(region: Region, other: Region, ctx: RegionCtx)
    requires SameSkeleton(region, other) && Accepted(other, ctx)
    requires TargetsExist(region.nodes) && region.start in region.nodes && ReadersKeep(region, ctx)
    ensures ReadersKeep(other, ctx)
  {
    AcceptedTraversable(region, other, ctx);
    forall k | k in other.nodes
      ensures other.nodes[k].Fail? <==> region.nodes[k].Fail?
    {
      SameNode(k, region.nodes[k], other.nodes[k]);
    }
  }

  lemma KeepingNeverMisleads(region: Region, ctx: RegionCtx)
    requires Traversable(region) ==> ReadersKeep(region, ctx)
    ensures NeverMisled(region, ctx)
  {
    forall other | SameSkeleton(region, other) && Accepted(other, ctx)
      ensures Valid(other, ctx)
    {
      AcceptedTraversable(region, other, ctx);
      SameReadersKeep(region, other, ctx);
      KeepingIsValid(other, ctx);
    }
  }

  /**
   * The exact reach of the analysis: it accepts no rule-breaking region with this skeleton if and
   * only if the skeleton cannot be walked through, or no node that can read loses a reference
   * after its check.
   */
  lemma NeverMisledIffReadersKeep(region: Region, ctx: RegionCtx)
    requires forall k :: k in region.nodes && region.nodes[k].Parallel? ==> region.nodes[k].branches != []
    ensures NeverMisled(region, ctx) <==> (Traversable(region) ==> ReadersKeep(region, ctx))
  {
    if Traversable(region) && !ReadersKeep(region, ctx) {
      var k, r := SomeShrinks(region, ctx);
      ShrinkingMisleads(region, ctx, k, r);
    } else {
      KeepingNeverMisleads(region, ctx);
    }
  }
}
