/** Validation of one region: edges, limits, cycles, availability and reachability. */
module RegionAnalysis {
  import opened Prelude
  import opened Bindings
  import opened Ir
  import opened Graph
  import opened CycleDetection
  import opened Availability
  import opened Exactness

  datatype RegionCtx = RegionCtx(
    inputSchema: SchemaRef,
    outputSchema: SchemaRef,
    inLoop: bool,
    inForeach: bool,
    inSaga: bool,
    inCompensation: bool)

  datatype AnalysisError =
    | MissingTarget(key: Key, target: Key)
    | BindingTooDeep
    | TooManyOperators
    | Cycle(key: Key)
    | StartMissing  // the source panics here
    | LoopContext(reference: Reference)
    | ItemContext(reference: Reference)
    | ForwardContext(reference: Reference)
    | NotAvailable(reference: Reference)
    | Unreachable

  // ----- references -----

  function SuccessOutput(key: Key, node: Node): Option<Reference> {
    if node.Fail? || node.Delay? || node.WaitUntil? || node.Complete? then None else Some(NodeOutput(key))
  }

  function Base(ctx: RegionCtx): set<Reference> {
    {WorkflowInput, ScopeInput, ScopeId}
    + (if ctx.inLoop then {LoopState, LoopIndex} else {})
    + (if ctx.inForeach then {ItemValue, ItemIndex} else {})
    + (if ctx.inCompensation then {ForwardInput, ForwardOutput} else {})
  }

  function CasesBindings(cases: seq<ChooseCase>): seq<Binding> {
    if cases == [] then [] else ConditionBindings(cases[0].when) + CasesBindings(cases[1..])
  }

  function BranchInputs(branches: seq<ParallelBranch>): seq<Binding> {
    if branches == [] then [] else [branches[0].input] + BranchInputs(branches[1..])
  }

  /** Every binding a node evaluates, in checking order. */
  function NodeBindings(node: Node): seq<Binding> {
    match node
    case Activity(_, input, compensation, _) =>
      [input] + (match compensation
                 case Some(CompensateWith(_, undo)) => [undo]
                 case _ => [])
    case Choose(input, cases, _, _) => [input] + CasesBindings(cases)
    case Delay(duration, _) => [duration]
    case WaitUntil(at, _) => [at]
    case WaitSignal(_, key, _, _, _) => [key]
    case Complete(output) => [output]
    case While(state, _, condition, _, _, _) => [state] + ConditionBindings(condition)
    case DoWhile(state, _, condition, _, _, _) => [state] + ConditionBindings(condition)
    case Repeat(count, state, _, _, _, _) => [count, state]
    case Foreach(items, _, _, _, _, _) => [items]
    case Parallel(branches, _) => BranchInputs(branches)
    case Saga(input, _, _) => [input]
    case Fail(_, _) => []
  }

  /** The scoping rules that do not depend on the paths taken. */
  function CheckContext(node: Node, r: Reference, ctx: RegionCtx): Option<AnalysisError> {
    match r
    case LoopState | LoopIndex =>
      if !ctx.inLoop && !(node.While? || node.DoWhile? || node.Repeat?) then Some(LoopContext(r)) else None
    case ItemValue | ItemIndex =>
      if !ctx.inForeach && !node.Foreach? then Some(ItemContext(r)) else None
    case ForwardInput | ForwardOutput =>
      if !ctx.inCompensation && !(node.Activity? && node.compensation.Some?) then Some(ForwardContext(r)) else None
    case _ => None
  }

  function CheckReference(node: Node, r: Reference, available: set<Reference>, ctx: RegionCtx): Option<AnalysisError> {
    if r.NodeOutput? then
      if r in available then None else Some(NotAvailable(r))
    else
      CheckContext(node, r, ctx)
  }

  ghost predicate Rejects(node: Node, rs: seq<Reference>, available: set<Reference>, ctx: RegionCtx, e: AnalysisError) {
    exists r :: r in rs && CheckReference(node, r, available, ctx) == Some(e)
  }

  function CheckReferences(node: Node, rs: seq<Reference>, available: set<Reference>, ctx: RegionCtx)
    : (e: Option<AnalysisError>)
    ensures e.None? <==> forall r :: r in rs ==> CheckReference(node, r, available, ctx).None?
    ensures e.Some? ==> Rejects(node, rs, available, ctx, e.value)
  {
    if rs == [] then
      None
    else
      var first := CheckReference(node, rs[0], available, ctx);
      if first.Some? then first else CheckReferences(node, rs[1..], available, ctx)
  }

  ghost predicate BindingFits(node: Node, b: Binding, available: set<Reference>, ctx: RegionCtx) {
    && Depth(b) <= MAX_DATA_DEPTH
    && forall r :: r in References(b) ==> CheckReference(node, r, available, ctx).None?
  }

  ghost predicate BindingFails(node: Node, b: Binding, available: set<Reference>, ctx: RegionCtx, e: AnalysisError) {
    (Depth(b) > MAX_DATA_DEPTH && e == BindingTooDeep) || Rejects(node, References(b), available, ctx, e)
  }

  function CheckEach(node: Node, bs: seq<Binding>, available: set<Reference>, ctx: RegionCtx)
    : (e: Option<AnalysisError>)
    ensures e.None? <==> forall b :: b in bs ==> BindingFits(node, b, available, ctx)
    ensures e.Some? ==> exists b :: b in bs && BindingFails(node, b, available, ctx, e.value)
  {
    if bs == [] then
      None
    else if Depth(bs[0]) > MAX_DATA_DEPTH then
      assert bs[0] in bs && BindingFails(node, bs[0], available, ctx, BindingTooDeep);
      assert !BindingFits(node, bs[0], available, ctx);
      Some(BindingTooDeep)
    else
      var first := CheckReferences(node, References(bs[0]), available, ctx);
      if first.Some? then
        assert bs[0] in bs && BindingFails(node, bs[0], available, ctx, first.value);
        assert !BindingFits(node, bs[0], available, ctx);
        first
      else
        CheckEach(node, bs[1..], available, ctx)
  }

  function CheckBindings(node: Node, available: set<Reference>, ctx: RegionCtx): Option<AnalysisError> {
    CheckEach(node, NodeBindings(node), available, ctx)
  }

  // ----- the region as a graph -----

  function OutgoingOf(nodes: map<Key, Node>): Outgoing {
    map k | k in nodes && Successors(nodes[k]) != [] :: Successors(nodes[k])
  }

  function OutputsOf(nodes: map<Key, Node>): map<Key, set<Reference>> {
    map k | k in nodes && SuccessOutput(k, nodes[k]).Some? :: {SuccessOutput(k, nodes[k]).value}
  }

  function FlowOf(region: Region, ctx: RegionCtx): Flow {
    Flow(OutgoingOf(region.nodes), OutputsOf(region.nodes), Base(ctx), region.start)
  }

  ghost predicate TargetsExist(nodes: map<Key, Node>) {
    forall k, e :: k in nodes && e in Successors(nodes[k]) ==> e.1 in nodes
  }

  /** Limits that are checked node by node, before any walk. */
  predicate WithinLimits(node: Node) {
    match node
    case WaitSignal(_, key, _, _, _) => Depth(key) <= MAX_DATA_DEPTH
    case While(_, _, condition, _, _, _) => OperatorCount(condition) <= MAX_CONDITION_OPS
    case DoWhile(_, _, condition, _, _, _) => OperatorCount(condition) <= MAX_CONDITION_OPS
    case Choose(_, cases, _, _) => forall i :: 0 <= i < |cases| ==> OperatorCount(cases[i].when) <= MAX_CONDITION_OPS
    case _ => true
  }

  lemma EdgesOf(nodes: map<Key, Node>, k: Key)
    ensures Edges(OutgoingOf(nodes), k) == if k in nodes then Successors(nodes[k]) else []
  {
  }

  lemma TargetsClosed(nodes: map<Key, Node>)
    requires TargetsExist(nodes)
    ensures Closed(OutgoingOf(nodes), nodes.Keys)
  {
  }

  /** The state of the worklist once it has run dry on `region`. */
  ghost function Swept(region: Region, ctx: RegionCtx): Sweep
    requires TargetsExist(region.nodes) && region.start in region.nodes
  {
    TargetsClosed(region.nodes);
    Final(FlowOf(region, ctx), region.nodes.Keys)
  }

  lemma SweptSound(region: Region, ctx: RegionCtx)
    requires TargetsExist(region.nodes) && region.start in region.nodes
    ensures Sound(FlowOf(region, ctx), Swept(region, ctx)) && Swept(region, ctx).pending == []
    ensures Swept(region, ctx).checked.Keys <= region.nodes.Keys
  {
    TargetsClosed(region.nodes);
    InitialSound(FlowOf(region, ctx));
    ExploreSound(FlowOf(region, ctx), region.nodes.Keys, Initial(FlowOf(region, ctx)));
  }

  /** The graph part of acceptance. */
  ghost predicate WellShaped(region: Region) {
    && TargetsExist(region.nodes)
    && (forall k :: k in region.nodes ==> WithinLimits(region.nodes[k]))
    && region.start in region.nodes
    && AcyclicFrom(OutgoingOf(region.nodes), region.start)
  }

  /** What the analysis accepts. */
  ghost predicate Accepted(region: Region, ctx: RegionCtx) {
    && WellShaped(region)
    && Swept(region, ctx).checked.Keys == region.nodes.Keys
    && forall k :: k in region.nodes && k in Swept(region, ctx).checked ==>
         CheckBindings(region.nodes[k], Swept(region, ctx).checked[k], ctx).None?
  }

  /** Node `k` reads `r`. */
  ghost predicate Uses(region: Region, k: Key, r: Reference) {
    k in region.nodes && exists b :: b in NodeBindings(region.nodes[k]) && r in References(b)
  }

  predicate Loops(node: Node) {
    node.While? || node.DoWhile? || node.Repeat?
  }

  predicate Compensates(node: Node) {
    node.Activity? && node.compensation.Some?
  }

  /** Node `k` has the fault that `e` reports. */
  ghost predicate AtFault(region: Region, ctx: RegionCtx, e: AnalysisError, k: Key) {
    match e
    case MissingTarget(key, target) =>
      k == key && k in region.nodes && target !in region.nodes &&
      exists edge :: edge in Successors(region.nodes[k]) && edge.1 == target
    case BindingTooDeep =>
      k in region.nodes && exists b :: b in NodeBindings(region.nodes[k]) && Depth(b) > MAX_DATA_DEPTH
    case TooManyOperators => k in region.nodes && !WithinLimits(region.nodes[k])
    case Cycle(key) => k == key && Reaches(OutgoingOf(region.nodes), region.start, k) && Leads(OutgoingOf(region.nodes), k, k)
    case StartMissing => k == region.start && k !in region.nodes
    case NotAvailable(r) => Uses(region, k, r) && !OnEveryWalk(FlowOf(region, ctx), k, r)
    case Unreachable => k in region.nodes && !Reaches(OutgoingOf(region.nodes), region.start, k)
    case LoopContext(r) =>
      Uses(region, k, r) && (r.LoopState? || r.LoopIndex?) && !ctx.inLoop && !Loops(region.nodes[k])
    case ItemContext(r) =>
      Uses(region, k, r) && (r.ItemValue? || r.ItemIndex?) && !ctx.inForeach && !region.nodes[k].Foreach?
    case ForwardContext(r) =>
      Uses(region, k, r) && (r.ForwardInput? || r.ForwardOutput?) && !ctx.inCompensation && !Compensates(region.nodes[k])
  }

  /** An error comes with a fault that is really there. */
  ghost predicate Justified(region: Region, ctx: RegionCtx, e: AnalysisError) {
    exists k :: AtFault(region, ctx, e, k)
  }

  // ----- the analysis -----

  /** The targets of `node` all exist. */
  ghost predicate Anchored(node: Node, nodes: map<Key, Node>) {
    forall e :: e in Successors(node) ==> e.1 in nodes
  }

  /** Every target of the node at `key` exists; an error names one that does not. */
  method CheckTargets(region: Region, ctx: RegionCtx, key: Key) returns (failure: Option<AnalysisError>)
    requires key in region.nodes
    ensures failure.None? <==> Anchored(region.nodes[key], region.nodes)
    ensures failure.Some? ==> Justified(region, ctx, failure.value)
  {
    var edges := Successors(region.nodes[key]);
    for i := 0 to |edges|
      invariant forall j :: 0 <= j < i ==> edges[j].1 in region.nodes
    {
      if edges[i].1 !in region.nodes {
        assert edges[i] in edges;
        assert AtFault(region, ctx, MissingTarget(key, edges[i].1), key);
        return Some(MissingTarget(key, edges[i].1));
      }
    }
    failure := None;
  }

  /** Every case condition is within the operator limit. */
  method CheckCases(cases: seq<ChooseCase>) returns (ok: bool)
    ensures ok <==> forall i :: 0 <= i < |cases| ==> OperatorCount(cases[i].when) <= MAX_CONDITION_OPS
  {
    for i := 0 to |cases|
      invariant forall j :: 0 <= j < i ==> OperatorCount(cases[j].when) <= MAX_CONDITION_OPS
    {
      if OperatorCount(cases[i].when) > MAX_CONDITION_OPS {
        return false;
      }
    }
    ok := true;
  }

  /** Every condition of the node is within the operator limit. */
  method CheckOperators(node: Node) returns (ok: bool)
    requires !node.WaitSignal?
    ensures ok <==> WithinLimits(node)
  {
    match node {
      case While(_, _, condition, _, _, _) => ok := OperatorCount(condition) <= MAX_CONDITION_OPS;
      case DoWhile(_, _, condition, _, _, _) => ok := OperatorCount(condition) <= MAX_CONDITION_OPS;
      case Choose(_, cases, _, _) => ok := CheckCases(cases);
      case _ => ok := true;
    }
  }

  /** The limits that are checked node by node. */
  method CheckLimits(region: Region, ctx: RegionCtx, key: Key) returns (failure: Option<AnalysisError>)
    requires key in region.nodes
    ensures failure.None? <==> WithinLimits(region.nodes[key])
    ensures failure.Some? ==> Justified(region, ctx, failure.value)
  {
    failure := None;
    var node := region.nodes[key];
    if node.WaitSignal? {
      if Depth(node.key) > MAX_DATA_DEPTH {
        assert node.key in NodeBindings(node);
        assert AtFault(region, ctx, BindingTooDeep, key);
        failure := Some(BindingTooDeep);
      }
    } else {
      var ok := CheckOperators(node);
      if !ok {
        assert AtFault(region, ctx, TooManyOperators, key);
        failure := Some(TooManyOperators);
      }
    }
  }

  /** Collects the outgoing edges and checks the limits that need no walk. */
  method CollectEdges(region: Region, ctx: RegionCtx) returns (r: Result<Outgoing, AnalysisError>)
    ensures r.Ok? <==> TargetsExist(region.nodes) && forall k :: k in region.nodes ==> WithinLimits(region.nodes[k])
    ensures r.Ok? ==> r.value == OutgoingOf(region.nodes)
    ensures r.Err? ==> Justified(region, ctx, r.error)
  {
    var outgoing: Outgoing := map[];
    var rest := region.nodes.Keys;
    while rest != {}
      invariant rest <= region.nodes.Keys
      invariant forall k :: k in region.nodes && k !in rest ==> Anchored(region.nodes[k], region.nodes)
      invariant forall k :: k in region.nodes && k !in rest ==> WithinLimits(region.nodes[k])
      invariant outgoing == map k | k in region.nodes && k !in rest && Successors(region.nodes[k]) != [] :: Successors(region.nodes[k])
      decreases rest
    {
      var key :| key in rest;
      var failure := CheckTargets(region, ctx, key);
      if failure.Some? {
        return Err(failure.value);
      }
      if Successors(region.nodes[key]) != [] {
        outgoing := outgoing[key := Successors(region.nodes[key])];
      }
      failure := CheckLimits(region, ctx, key);
      if failure.Some? {
        return Err(failure.value);
      }
      rest := rest - {key};
    }
    r := Ok(outgoing);
  }

  lemma {:induction false} ExploreKeeps(f: Flow, universe: set<Key>, s: Sweep, k: Key)
    requires Ready(f, universe, s) && k in s.checked
    ensures k in Explore(f, universe, s).checked && Explore(f, universe, s).checked[k] == s.checked[k]
    decreases |universe - s.checked.Keys|, |s.pending|
  {
    if s.pending != [] {
      StepReady(f, universe, s);
      if s.pending[|s.pending| - 1] !in s.checked {
        StepShrinks(f, universe, s);
      }
      ExploreKeeps(f, universe, Step(f, s), k);
    }
  }

  lemma MissingJustified(region: Region, ctx: RegionCtx, s: Sweep, key: Key, r: Reference)
    requires Sound(FlowOf(region, ctx), s) && key in s.at && Uses(region, key, r) && r !in s.at[key]
    ensures Justified(region, ctx, NotAvailable(r))
  {
    var w := MissingAtWalk(FlowOf(region, ctx), s, key, r);
    assert AtFault(region, ctx, NotAvailable(r), key);
  }

  lemma ReferenceJustified(region: Region, ctx: RegionCtx, s: Sweep, key: Key, r: Reference)
    requires Sound(FlowOf(region, ctx), s) && key in s.at && Uses(region, key, r)
    requires CheckReference(region.nodes[key], r, s.at[key], ctx).Some?
    ensures Justified(region, ctx, CheckReference(region.nodes[key], r, s.at[key], ctx).value)
  {
    if r.NodeOutput? {
      MissingJustified(region, ctx, s, key, r);
    } else {
      ContextJustified(region, ctx, key, r, CheckContext(region.nodes[key], r, ctx).value);
    }
  }

  lemma ContextJustified(region: Region, ctx: RegionCtx, key: Key, r: Reference, e: AnalysisError)
    requires Uses(region, key, r) && CheckContext(region.nodes[key], r, ctx) == Some(e)
    ensures Justified(region, ctx, e)
  {
    assert AtFault(region, ctx, e, key);
  }

  lemma CheckFailureJustified(region: Region, ctx: RegionCtx, s: Sweep, key: Key)
    requires Sound(FlowOf(region, ctx), s) && key in s.at && key in region.nodes
    requires CheckBindings(region.nodes[key], s.at[key], ctx).Some?
    ensures Justified(region, ctx, CheckBindings(region.nodes[key], s.at[key], ctx).value)
  {
    var node, available := region.nodes[key], s.at[key];
    var e := CheckBindings(node, available, ctx).value;
    var b :| b in NodeBindings(node) && BindingFails(node, b, available, ctx, e);
    if Rejects(node, References(b), available, ctx, e) {
      var r :| r in References(b) && CheckReference(node, r, available, ctx) == Some(e);
      assert Uses(region, key, r);
      ReferenceJustified(region, ctx, s, key, r);
    } else {
      assert AtFault(region, ctx, e, key);
    }
  }

  lemma UnreachableJustified(region: Region, ctx: RegionCtx)
    requires TargetsExist(region.nodes) && region.start in region.nodes
    requires |Swept(region, ctx).checked.Keys| != |region.nodes.Keys|
    ensures Justified(region, ctx, Unreachable) && Swept(region, ctx).checked.Keys != region.nodes.Keys
  {
    SweptSound(region, ctx);
    var seen := Swept(region, ctx).checked.Keys;
    assert seen <= region.nodes.Keys && seen != region.nodes.Keys;
    var k :| k in region.nodes && k !in seen;
    FinalReached(FlowOf(region, ctx), Swept(region, ctx), k);
    assert AtFault(region, ctx, Unreachable, k);
  }

  lemma SameSizeSame(a: set<Key>, b: set<Key>)
    requires a <= b && |a| == |b|
    ensures a == b
  {
    assert b == a + (b - a);
  }

  /** Nodes popped so far passed their check. */
  ghost predicate AllPass(region: Region, ctx: RegionCtx, s: Sweep) {
    forall k :: k in s.checked && k in region.nodes ==> CheckBindings(region.nodes[k], s.checked[k], ctx).None?
  }

  /** `s` is a state the worklist passes through on `region`, all checks so far passed. */
  ghost predicate Underway(region: Region, ctx: RegionCtx, s: Sweep)
    requires TargetsExist(region.nodes) && region.start in region.nodes
  {
    && Ready(FlowOf(region, ctx), region.nodes.Keys, s)
    && Sound(FlowOf(region, ctx), s)
    && AllPass(region, ctx, s)
    && Explore(FlowOf(region, ctx), region.nodes.Keys, s) == Swept(region, ctx)
  }

  lemma UnderwayInitially(region: Region, ctx: RegionCtx)
    requires TargetsExist(region.nodes) && region.start in region.nodes
    ensures Underway(region, ctx, Initial(FlowOf(region, ctx)))
  {
    TargetsClosed(region.nodes);
    InitialSound(FlowOf(region, ctx));
  }

  lemma UnderwayStep(region: Region, ctx: RegionCtx, s: Sweep)
    requires TargetsExist(region.nodes) && region.start in region.nodes && Underway(region, ctx, s) && s.pending != []
    ensures Ready(FlowOf(region, ctx), region.nodes.Keys, Step(FlowOf(region, ctx), s))
    ensures Sound(FlowOf(region, ctx), Step(FlowOf(region, ctx), s))
    ensures Explore(FlowOf(region, ctx), region.nodes.Keys, Step(FlowOf(region, ctx), s)) == Swept(region, ctx)
  {
    StepReady(FlowOf(region, ctx), region.nodes.Keys, s);
    StepSound(FlowOf(region, ctx), s);
  }

  lemma UnderwaySkip(region: Region, ctx: RegionCtx, s: Sweep)
    requires TargetsExist(region.nodes) && region.start in region.nodes && Underway(region, ctx, s) && s.pending != []
    requires s.pending[|s.pending| - 1] in s.checked
    ensures Underway(region, ctx, s.(pending := s.pending[..|s.pending| - 1]))
  {
    UnderwayStep(region, ctx, s);
  }

  ghost function AfterVisit(region: Region, ctx: RegionCtx, s: Sweep): Sweep
    requires s.pending != [] && s.pending[|s.pending| - 1] in s.at
  {
    var key := s.pending[|s.pending| - 1];
    PushEdges(FlowOf(region, ctx), key, Edges(OutgoingOf(region.nodes), key),
              Mark(key, s.(pending := s.pending[..|s.pending| - 1])))
  }

  lemma UnderwayVisit(region: Region, ctx: RegionCtx, s: Sweep)
    requires TargetsExist(region.nodes) && region.start in region.nodes && Underway(region, ctx, s) && s.pending != []
    requires var key := s.pending[|s.pending| - 1];
             key !in s.checked && key in region.nodes && CheckBindings(region.nodes[key], s.at[key], ctx).None?
    ensures Underway(region, ctx, AfterVisit(region, ctx, s))
    ensures |region.nodes.Keys - AfterVisit(region, ctx, s).checked.Keys| < |region.nodes.Keys - s.checked.Keys|
  {
    UnderwayStep(region, ctx, s);
    StepShrinks(FlowOf(region, ctx), region.nodes.Keys, s);
    assert Step(FlowOf(region, ctx), s) == AfterVisit(region, ctx, s);
  }

  lemma UnderwayFails(region: Region, ctx: RegionCtx, s: Sweep)
    requires TargetsExist(region.nodes) && region.start in region.nodes && Underway(region, ctx, s) && s.pending != []
    requires var key := s.pending[|s.pending| - 1];
             key !in s.checked && key in region.nodes && CheckBindings(region.nodes[key], s.at[key], ctx).Some?
    ensures !AllPass(region, ctx, Swept(region, ctx))
    ensures Justified(region, ctx, CheckBindings(region.nodes[s.pending[|s.pending| - 1]], s.at[s.pending[|s.pending| - 1]], ctx).value)
  {
    var key := s.pending[|s.pending| - 1];
    CheckFailureJustified(region, ctx, s, key);
    UnderwayStep(region, ctx, s);
    ExploreKeeps(FlowOf(region, ctx), region.nodes.Keys, Step(FlowOf(region, ctx), s), key);
  }

  /** Handles the first pop of a key: checks the node, then joins at its targets. */
  method VisitNode(region: Region, ctx: RegionCtx, outgoing: Outgoing,
                   pending: seq<Key>, atNode: map<Key, set<Reference>>, ghost s: Sweep)
    returns (failure: Option<AnalysisError>, pending': seq<Key>, atNode': map<Key, set<Reference>>)
    requires TargetsExist(region.nodes) && region.start in region.nodes && outgoing == OutgoingOf(region.nodes)
    requires s.pending == pending != [] && s.at == atNode && Underway(region, ctx, s)
    requires pending[|pending| - 1] !in s.checked
    ensures failure.None? ==> Underway(region, ctx, AfterVisit(region, ctx, s))
    ensures failure.None? ==> |region.nodes.Keys - AfterVisit(region, ctx, s).checked.Keys| < |region.nodes.Keys - s.checked.Keys|
    ensures failure.None? ==> pending' == AfterVisit(region, ctx, s).pending && atNode' == AfterVisit(region, ctx, s).at
    ensures failure.Some? ==> !AllPass(region, ctx, Swept(region, ctx)) && Justified(region, ctx, failure.value)
  {
    var key := pending[|pending| - 1];
    pending', atNode' := pending, atNode;
    failure := CheckBindings(region.nodes[key], atNode[key], ctx);
    if failure.Some? {
      UnderwayFails(region, ctx, s);
    } else {
      UnderwayVisit(region, ctx, s);
      ghost var marked := Mark(key, s.(pending := pending[..|pending| - 1]));
      pending', atNode' := PushTargets(region, ctx, key, outgoing, pending[..|pending| - 1], atNode, marked);
    }
  }

  /** The availability worklist: pops keys, checks each node once and joins at its targets. */
  method SweepRegion(region: Region, ctx: RegionCtx, outgoing: Outgoing) returns (r: Result<(), AnalysisError>)
    requires TargetsExist(region.nodes) && region.start in region.nodes && outgoing == OutgoingOf(region.nodes)
    ensures r.Ok? <==> Swept(region, ctx).checked.Keys == region.nodes.Keys && AllPass(region, ctx, Swept(region, ctx))
    ensures r.Err? ==> Justified(region, ctx, r.error)
  {
    var pending, seen, atNode := [region.start], {}, map[region.start := Base(ctx)];
    ghost var s := Initial(FlowOf(region, ctx));
    UnderwayInitially(region, ctx);
    while pending != []
      invariant s.pending == pending && s.at == atNode && s.checked.Keys == seen
      invariant Underway(region, ctx, s)
      decreases |region.nodes.Keys - s.checked.Keys|, |pending|
    {
      var key := pending[|pending| - 1];
      if key in seen {
        UnderwaySkip(region, ctx, s);
        pending := pending[..|pending| - 1];
        s := s.(pending := pending);
      } else {
        var failure;
        failure, pending, atNode := VisitNode(region, ctx, outgoing, pending, atNode, s);
        if failure.Some? {
          return Err(failure.value);
        }
        AfterVisitSeen(region, ctx, s);
        seen := seen + {key};
        s := AfterVisit(region, ctx, s);
      }
    }
    r := Reached(region, ctx, seen, s);
  }

  lemma AfterVisitSeen(region: Region, ctx: RegionCtx, s: Sweep)
    requires s.pending != [] && s.pending[|s.pending| - 1] in s.at
    ensures AfterVisit(region, ctx, s).checked.Keys == s.checked.Keys + {s.pending[|s.pending| - 1]}
  {
  }

  /** The closing test: every node was seen. */
  method Reached(region: Region, ctx: RegionCtx, seen: set<Key>, ghost s: Sweep) returns (r: Result<(), AnalysisError>)
    requires TargetsExist(region.nodes) && region.start in region.nodes
    requires Underway(region, ctx, s) && s.pending == [] && s.checked.Keys == seen
    ensures r.Ok? <==> Swept(region, ctx).checked.Keys == region.nodes.Keys && AllPass(region, ctx, Swept(region, ctx))
    ensures r.Err? ==> Justified(region, ctx, r.error)
  {
    assert s == Swept(region, ctx);
    if |seen| != |region.nodes.Keys| {
      UnreachableJustified(region, ctx);
      return Err(Unreachable);
    }
    SweptSound(region, ctx);
    SameSizeSame(seen, region.nodes.Keys);
    r := Ok(());
  }

  /** Joins the availability after `key` into each of its targets and pushes them. */
  method PushTargets(region: Region, ctx: RegionCtx, key: Key, outgoing: Outgoing,
                     pending: seq<Key>, atNode: map<Key, set<Reference>>, ghost s: Sweep)
    returns (pending': seq<Key>, atNode': map<Key, set<Reference>>)
    requires key in region.nodes && outgoing == OutgoingOf(region.nodes)
    requires key in atNode && s.pending == pending && s.at == atNode
    ensures var s' := PushEdges(FlowOf(region, ctx), key, Edges(outgoing, key), s);
            pending' == s'.pending && atNode' == s'.at
  {
    ghost var f := FlowOf(region, ctx);
    pending', atNode' := pending, atNode;
    if key in outgoing {
      var edges := outgoing[key];
      var output := SuccessOutput(key, region.nodes[key]);
      for i := 0 to |edges|
        invariant var s' := PushEdges(f, key, edges[..i], s); pending' == s'.pending && atNode' == s'.at
      {
        assert edges[..i + 1][..i] == edges[..i];
        var nextAvail := atNode'[key];
        if edges[i].0 == Next && output.Some? {
          nextAvail := nextAvail + {output.value};
        }
        var target := edges[i].1;
        var entry := if target in atNode' then atNode'[target] else nextAvail;
        assert nextAvail * nextAvail == nextAvail;
        assert nextAvail == atNode'[key] + Gain(f, key, edges[i].0);
        atNode' := atNode'[target := entry * nextAvail];
        pending' := pending' + [target];
      }
      assert edges[..|edges|] == edges;
    }
  }

  /** Accepts exactly the regions of `Accepted`; every rejection names a fault that is there. */
  method AnalyzeRegion(region: Region, ctx: RegionCtx) returns (r: Result<(), AnalysisError>)
    ensures r.Ok? <==> Accepted(region, ctx)
    ensures r.Err? ==> Justified(region, ctx, r.error)
  {
    var collected := CollectEdges(region, ctx);
    if collected.Err? {
      return Err(collected.error);
    }
    var cycle := DetectCycle(region.start, collected.value);
    if cycle.Err? {
      assert AtFault(region, ctx, Cycle(cycle.error), cycle.error);
      return Err(Cycle(cycle.error));
    }
    if region.start !in region.nodes {
      assert AtFault(region, ctx, StartMissing, region.start);
      return Err(StartMissing);
    }
    r := SweepRegion(region, ctx, collected.value);
  }
}
