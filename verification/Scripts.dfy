/** What a script of fluent calls says, step by step, and that the region built from it says the same. */
module Scripts {
  import opened Prelude
  import opened Bindings
  import opened Ir
  import opened Codecs
  import opened CompilerSpec
  import opened Chain
  import opened Builder
  import opened FluentFlow

  /** A call that appends a node, with the handler of the last compensation that follows it. */
  datatype Step = Step(call: Call, undo: Option<ActivityKey>)

  /** The last step with a new undo. */
  function Redone(steps: seq<Step>, handler: ActivityKey): seq<Step>
    requires steps != []
  {
    steps[..|steps| - 1] + [steps[|steps| - 1].(undo := Some(handler))]
  }

  function StepsOf(calls: seq<Call>): seq<Step>
    decreases |calls|
  {
    if calls == [] then []
    else
      var steps, call := StepsOf(calls[..|calls| - 1]), calls[|calls| - 1];
      if !call.CallCompensate? then steps + [Step(call, None)]
      else if steps == [] then []
      else Redone(steps, call.handler)
  }

  predicate Appending(steps: seq<Step>) {
    forall j :: 0 <= j < |steps| ==> !steps[j].call.CallCompensate?
  }

  lemma {:induction false} StepsAppend(calls: seq<Call>)
    ensures Appending(StepsOf(calls))
    decreases |calls|
  {
    if calls != [] {
      StepsAppend(calls[..|calls| - 1]);
    }
  }

  function StepKeys(steps: seq<Step>): (keys: seq<Key>)
    requires Appending(steps)
    ensures |keys| == |steps| && forall j :: 0 <= j < |steps| ==> keys[j] == steps[j].call.key
  {
    seq(|steps|, j requires 0 <= j < |steps| => steps[j].call.key)
  }

  /** What the step at place `j` takes: the output of the step before it, or the input at first. */
  function Taken(keys: seq<Key>, j: nat, atRoot: bool): Binding
    requires j <= |keys|
  {
    if j > 0 then From(NodeOutput(keys[j - 1]), None) else if atRoot then From(WorkflowInput, None) else From(ScopeInput, None)
  }

  /** The node takes `b` where a node of its kind takes the current value; waits and failures take none. */
  ghost predicate Takes(node: Node, b: Binding) {
    && (node.Activity? || node.Choose? || node.Saga? ==> node.input == b)
    && (node.While? || node.DoWhile? || node.Repeat? ==> node.state == b)
    && (node.Foreach? ==> node.items == b)
    && (node.Parallel? ==> forall i :: 0 <= i < |node.branches| ==> node.branches[i].input == b)
    && (node.Complete? ==> node.output == b)
  }

  /** The node is the one the call asks for, apart from what it takes, its compensation and its next node. */
  ghost predicate AsCalled(call: Call, node: Node) {
    match call
    case CallActivity(_, activity) => node.Activity? && node.activity == activity
    case CallWaitSignal(_, signal, correlation) =>
      node.WaitSignal? && node.signal == signal && node.key == Literal(correlation) && node.timeoutMs.None? && node.onTimeout.None?
    case CallWhileLt(_, path, value, body, n) =>
      && node.While? && node.stateSchema == body.inputSchema && node.maxIterations == n && node.body == body
      && node.condition == Compare(Lt, From(LoopState, Some(path)), Literal(value))
    case CallRepeat(_, count, body, n) =>
      node.Repeat? && node.count == Literal(count) && node.stateSchema == body.inputSchema && node.maxIterations == n && node.body == body
    case CallForeach(_, body, n, m) =>
      node.Foreach? && node.itemSchema == body.inputSchema && node.maxItems == n && node.maxConcurrency == m && node.body == body
    case CallSaga(_, body) => node.Saga? && node.body == body
    case CallChoose(_, cases, default) => node.Choose? && node.cases == cases && node.default == default
    case CallParallel(_, bodies) =>
      && node.Parallel? && |node.branches| == |bodies|
      && forall i :: 0 <= i < |bodies| ==> node.branches[i].name == bodies[i].name && node.branches[i].body == bodies[i].body
    case CallCompensate(_) => false
  }

  /** Only the undo asked for last is attached, and it reads the output of what it undoes. */
  ghost predicate Undone(node: Node, undo: Option<ActivityKey>) {
    node.Activity? ==>
      node.compensation == if undo.None? then None else Some(CompensateWith(undo.value, From(ForwardOutput, None)))
  }

  ghost predicate StepDone(step: Step, node: Node, taken: Binding) {
    AsCalled(step.call, node) && Takes(node, taken) && Undone(node, step.undo)
  }

  // ----- drafts -----

  ghost predicate PlaceDone(nodes: map<Key, Node>, keys: seq<Key>, steps: seq<Step>, atRoot: bool, j: nat) {
    j < |steps| && j < |keys| && keys[j] in nodes && StepDone(steps[j], nodes[keys[j]], Taken(keys, j, atRoot))
  }

  ghost predicate PlacesDone(nodes: map<Key, Node>, keys: seq<Key>, steps: seq<Step>, atRoot: bool) {
    forall j: nat :: j < |steps| ==> PlaceDone(nodes, keys, steps, atRoot, j)
  }

  ghost predicate DraftDone(d: Draft, steps: seq<Step>, atRoot: bool) {
    && Appending(steps) && d.keys == StepKeys(steps) && d.last == Taken(d.keys, |d.keys|, atRoot)
    && PlacesDone(d.nodes, d.keys, steps, atRoot)
    && (d.lastActivity.Some? <==> EndsInActivity(steps))
  }

  ghost predicate EndsInActivity(steps: seq<Step>) {
    steps != [] && steps[|steps| - 1].call.CallActivity?
  }

  lemma StepDoneNext(step: Step, node: Node, taken: Binding, to: Key)
    requires StepDone(step, node, taken)
    ensures StepDone(step, WithNext(node, to), taken)
  {
  }

  lemma CallDone(call: Call, taken: Binding)
    requires !call.CallCompensate?
    ensures StepDone(Step(call, None), WithNext(CallNode(call, taken), call.key), taken)
  {
  }

  lemma TakenEarlier(keys: seq<Key>, key: Key, j: nat, atRoot: bool)
    requires j <= |keys|
    ensures Taken(keys + [key], j, atRoot) == Taken(keys, j, atRoot)
  {
  }

  /** Connecting the tail changes no node but for the next one. */
  lemma TailKept(nodes: map<Key, Node>, tail: Option<Key>, key: Key, node: Node, k: Key)
    requires k in nodes && key !in nodes
    ensures var nodes' := TailLinked(nodes, tail, key)[key := node];
            k in nodes' && (nodes'[k] == nodes[k] || nodes'[k] == WithNext(nodes[k], key))
  {
  }

  lemma PlaceKept(nodes: map<Key, Node>, tail: Option<Key>, key: Key, node: Node, keys: seq<Key>, steps: seq<Step>, atRoot: bool, j: nat)
    requires key !in nodes && PlaceDone(nodes, keys, steps, atRoot, j)
    ensures PlaceDone(TailLinked(nodes, tail, key)[key := node], keys + [key], steps, atRoot, j)
  {
    TailKept(nodes, tail, key, node, keys[j]);
    StepDoneNext(steps[j], nodes[keys[j]], Taken(keys, j, atRoot), key);
    TakenEarlier(keys, key, j, atRoot);
  }

  lemma PlacesKept(nodes: map<Key, Node>, tail: Option<Key>, key: Key, node: Node, keys: seq<Key>, steps: seq<Step>, atRoot: bool)
    requires key !in nodes && PlacesDone(nodes, keys, steps, atRoot)
    ensures PlacesDone(TailLinked(nodes, tail, key)[key := node], keys + [key], steps, atRoot)
  {
    var nodes', keys' := TailLinked(nodes, tail, key)[key := node], keys + [key];
    forall j: nat | j < |steps|
      ensures PlaceDone(nodes', keys', steps, atRoot, j)
    {
      PlaceKept(nodes, tail, key, node, keys, steps, atRoot, j);
    }
  }

  lemma PlacesGrow(nodes: map<Key, Node>, keys: seq<Key>, steps: seq<Step>, atRoot: bool, step: Step)
    requires PlacesDone(nodes, keys, steps, atRoot) && |keys| == |steps| + 1
    requires keys[|steps|] in nodes && StepDone(step, nodes[keys[|steps|]], Taken(keys, |steps|, atRoot))
    ensures PlacesDone(nodes, keys, steps + [step], atRoot)
  {
    var steps' := steps + [step];
    forall j: nat | j < |steps'|
      ensures PlaceDone(nodes, keys, steps', atRoot, j)
    {
      assert j < |steps| ==> PlaceDone(nodes, keys, steps, atRoot, j);
    }
  }

  lemma GrownDone(d: Draft, steps: seq<Step>, atRoot: bool, call: Call)
    requires DraftDone(d, steps, atRoot) && !call.CallCompensate? && call.key !in d.nodes
    ensures DraftDone(Grown(d, call.key, CallNode(call, d.last)), steps + [Step(call, None)], atRoot)
  {
    var node, keys' := WithNext(CallNode(call, d.last), call.key), d.keys + [call.key];
    var nodes' := TailLinked(d.nodes, TailOf(d.keys), call.key)[call.key := node];
    PlacesKept(d.nodes, TailOf(d.keys), call.key, node, d.keys, steps, atRoot);
    CallDone(call, d.last);
    TakenEarlier(d.keys, call.key, |steps|, atRoot);
    PlacesGrow(nodes', keys', steps, atRoot, Step(call, None));
    assert keys' == StepKeys(steps + [Step(call, None)]);
  }

  lemma UndoDone(step: Step, node: Node, taken: Binding, handler: ActivityKey)
    requires StepDone(step, node, taken) && node.Activity?
    ensures StepDone(step.(undo := Some(handler)), node.(compensation := Some(Undo(handler))), taken)
  {
  }

  lemma RedoneKept(nodes: map<Key, Node>, keys: seq<Key>, steps: seq<Step>, atRoot: bool, handler: ActivityKey, j: nat)
    requires PlaceDone(nodes, keys, steps, atRoot, j) && |keys| == |steps|
    requires keys[|steps| - 1] in nodes && nodes[keys[|steps| - 1]].Activity? && (j < |steps| - 1 ==> keys[j] != keys[|steps| - 1])
    ensures PlaceDone(nodes[keys[|steps| - 1] := nodes[keys[|steps| - 1]].(compensation := Some(Undo(handler)))], keys,
                      Redone(steps, handler), atRoot, j)
  {
    if j == |steps| - 1 {
      UndoDone(steps[j], nodes[keys[j]], Taken(keys, j, atRoot), handler);
    }
  }

  /** The compensation goes to the last step, which is an activity. */
  lemma CompensatedDone(d: Draft, steps: seq<Step>, atRoot: bool, handler: ActivityKey)
    requires Steady(d) && DraftDone(d, steps, atRoot) && CanCompensate(d)
    ensures steps != [] && DraftDone(Compensated(d, handler), Redone(steps, handler), atRoot)
  {
    OpenTail(d.nodes, StartOf(d.keys), TailOf(d.keys), d.keys);
    var n, d', steps' := |steps| - 1, Compensated(d, handler), Redone(steps, handler);
    assert d'.keys == StepKeys(steps');
    forall j: nat | j < |steps'|
      ensures PlaceDone(d'.nodes, d'.keys, steps', atRoot, j)
    {
      assert PlaceDone(d.nodes, d.keys, steps, atRoot, j);
      assert j < n ==> d.keys[j] != d.keys[n];
      RedoneKept(d.nodes, d.keys, steps, atRoot, handler, j);
    }
  }

  /** The steps after one more call. */
  ghost predicate StepsAfter(steps: seq<Step>, call: Call, steps': seq<Step>) {
    steps' ==
    if !call.CallCompensate? then steps + [Step(call, None)] else if steps == [] then [] else Redone(steps, call.handler)
  }

  lemma StepsGrow(calls: seq<Call>, i: nat)
    requires i < |calls|
    ensures StepsAfter(StepsOf(calls[..i]), calls[i], StepsOf(calls[..i + 1]))
  {
    assert calls[..i + 1][..i] == calls[..i] && calls[..i + 1][i] == calls[i];
  }

  lemma AfterDone(d: Draft, steps: seq<Step>, atRoot: bool, call: Call, d': Draft, steps': seq<Step>)
    requires Steady(d) && DraftDone(d, steps, atRoot)
    requires Allowed(d, call) && d' == After(d, call) && StepsAfter(steps, call, steps')
    ensures DraftDone(d', steps', atRoot)
  {
    if call.CallCompensate? {
      CompensatedDone(d, steps, atRoot, call.handler);
    } else {
      GrownDone(d, steps, atRoot, call);
    }
  }

  lemma PlayBack(d: Draft, calls: seq<Call>, i: nat) returns (before: Draft, steps: seq<Step>)
    requires 0 < i <= |calls| && Play(d, calls, i).Some?
    ensures Play(d, calls, i - 1) == Some(before) && Allowed(before, calls[i - 1])
    ensures Play(d, calls, i) == Some(After(before, calls[i - 1]))
    ensures steps == StepsOf(calls[..i - 1]) && StepsAfter(steps, calls[i - 1], StepsOf(calls[..i]))
  {
    before, steps := Play(d, calls, i - 1).value, StepsOf(calls[..i - 1]);
    StepsGrow(calls, i - 1);
  }

  lemma EmptyDone(atRoot: bool)
    ensures DraftDone(Empty(atRoot), [], atRoot)
  {
  }

  ghost predicate PlaysAs(atRoot: bool, calls: seq<Call>, i: nat, d: Draft, steps: seq<Step>)
    requires i <= |calls|
  {
    Play(Empty(atRoot), calls, i) == Some(d) && StepsOf(calls[..i]) == steps
  }

  lemma {:induction false} PlaysDone(atRoot: bool, calls: seq<Call>, i: nat, d: Draft, steps: seq<Step>)
    requires i <= |calls| && PlaysAs(atRoot, calls, i, d, steps)
    ensures DraftDone(d, steps, atRoot)
    decreases i
  {
    if i == 0 {
      EmptyDone(atRoot);
    } else {
      var before, steps0 := PlayBack(Empty(atRoot), calls, i);
      PlaysDone(atRoot, calls, i - 1, before, steps0);
      PlaySteady(atRoot, calls, i - 1, before);
      AfterDone(before, steps0, atRoot, calls[i - 1], d, steps);
    }
  }

  lemma PlaySteady(atRoot: bool, calls: seq<Call>, i: nat, d: Draft)
    requires i <= |calls| && Play(Empty(atRoot), calls, i) == Some(d)
    ensures Steady(d)
  {
    PlayFluent(atRoot, calls, i);
  }

  lemma PlayDone(atRoot: bool, calls: seq<Call>, i: nat)
    requires i <= |calls| && Play(Empty(atRoot), calls, i).Some?
    ensures DraftDone(Play(Empty(atRoot), calls, i).value, StepsOf(calls[..i]), atRoot)
  {
    PlaysDone(atRoot, calls, i, Play(Empty(atRoot), calls, i).value, StepsOf(calls[..i]));
  }

  // ----- which scripts run -----

  /**
   * A compensation follows an activity, perhaps after other compensations; every other call brings a
   * valid key of its own, a choice at least one case, and cases and branches have distinct valid names.
   */
  ghost predicate CallLaw(steps: seq<Step>, call: Call) {
    match call
    case CallCompensate(_) => EndsInActivity(steps)
    case CallChoose(key, cases, _) => NewKey(steps, key) && cases != [] && DistinctNames(ChooseNames(cases))
    case CallParallel(key, bodies) => NewKey(steps, key) && DistinctNames(BodyNames(bodies))
    case _ => NewKey(steps, call.key)
  }

  ghost predicate NewKey(steps: seq<Step>, key: string) {
    ValidNodeKey(key) && forall j :: 0 <= j < |steps| && !steps[j].call.CallCompensate? ==> steps[j].call.key != key
  }

  lemma NewKeyIff(d: Draft, steps: seq<Step>, atRoot: bool, key: string)
    requires Steady(d) && DraftDone(d, steps, atRoot)
    ensures KeyFree(d, key) <==> NewKey(steps, key)
  {
    assert key in d.nodes <==> key in d.keys;
    if key in d.keys {
      var j :| 0 <= j < |d.keys| && d.keys[j] == key;
      assert steps[j].call.key == key;
    }
    assert forall j :: 0 <= j < |steps| ==> d.keys[j] in d.keys;
  }

  lemma AllowedIff(d: Draft, steps: seq<Step>, atRoot: bool, call: Call)
    requires Steady(d) && DraftDone(d, steps, atRoot)
    ensures Allowed(d, call) <==> CallLaw(steps, call)
  {
    if !call.CallCompensate? {
      NewKeyIff(d, steps, atRoot, call.key);
    }
  }

  /** Call `j` is lawful after those before it. */
  ghost predicate LawfulAt(calls: seq<Call>, j: nat) {
    j < |calls| && CallLaw(StepsOf(calls[..j]), calls[j])
  }

  lemma PlayStepIff(atRoot: bool, calls: seq<Call>, i: nat)
    requires i < |calls|
    ensures Play(Empty(atRoot), calls, i + 1).Some? <==> Play(Empty(atRoot), calls, i).Some? && LawfulAt(calls, i)
  {
    if Play(Empty(atRoot), calls, i).Some? {
      PlayDone(atRoot, calls, i);
      PlayFluent(atRoot, calls, i);
      AllowedIff(Play(Empty(atRoot), calls, i).value, StepsOf(calls[..i]), atRoot, calls[i]);
    }
  }

  lemma {:induction false} PlayIff(atRoot: bool, calls: seq<Call>, i: nat)
    requires i <= |calls|
    ensures Play(Empty(atRoot), calls, i).Some? <==> forall j: nat :: j < i ==> LawfulAt(calls, j)
  {
    if i > 0 {
      PlayIff(atRoot, calls, i - 1);
      PlayStepIff(atRoot, calls, i - 1);
    }
  }

  /** A script that completes: every call lawful, and a new valid key for the end. */
  ghost predicate ScriptLaw(calls: seq<Call>, key: string) {
    (forall j: nat :: j < |calls| ==> LawfulAt(calls, j)) && NewKey(StepsOf(calls), key)
  }

  lemma ScriptLawIff(atRoot: bool, calls: seq<Call>, key: string)
    ensures Play(Empty(atRoot), calls, |calls|).Some? && KeyFree(Play(Empty(atRoot), calls, |calls|).value, key) <==>
            ScriptLaw(calls, key)
  {
    PlayIff(atRoot, calls, |calls|);
    if Play(Empty(atRoot), calls, |calls|).Some? {
      PlayDone(atRoot, calls, |calls|);
      PlayFluent(atRoot, calls, |calls|);
      assert calls[..|calls|] == calls;
      NewKeyIff(Play(Empty(atRoot), calls, |calls|).value, StepsOf(calls), atRoot, key);
    }
  }

  // ----- finished scripts -----

  /**
   * The region is one chain of exactly the steps of the script in their order; every step is what its
   * call asks for, takes the output of the step before it and carries the undo asked for last, and the
   * end takes the output of the last step.
   */
  ghost predicate Says(region: Region, calls: seq<Call>, key: Key, atRoot: bool) {
    StepsAppend(calls);
    var steps := StepsOf(calls);
    var keys := StepKeys(steps) + [key];
    && CompleteChain(region, keys)
    && PlacesDone(region.nodes, keys, steps, atRoot)
    && key in region.nodes && Takes(region.nodes[key], Taken(keys, |steps|, atRoot))
  }

  /** Whatever the calls, a finished script says what they say. */
  lemma ScriptSays(atRoot: bool, calls: seq<Call>, key: string, ending: Node, inputSchema: SchemaRef, outputSchema: SchemaRef)
    requires Play(Empty(atRoot), calls, |calls|).Some?
    requires var d := Play(Empty(atRoot), calls, |calls|).value;
             KeyFree(d, key) && (ending == Node.Complete(d.last) || ending.Fail?)
    ensures var region := Ended(Play(Empty(atRoot), calls, |calls|).value, key, ending, inputSchema, outputSchema);
            Says(region, calls, key, atRoot) && region.nodes[key] == ending
  {
    var d := Play(Empty(atRoot), calls, |calls|).value;
    var region := Ended(d, key, ending, inputSchema, outputSchema);
    PlayFluent(atRoot, calls, |calls|);
    PlayDone(atRoot, calls, |calls|);
    assert calls[..|calls|] == calls;
    StepsAppend(calls);
    var steps := StepsOf(calls);
    OpenCloses(d.nodes, StartOf(d.keys), TailOf(d.keys), d.keys, key, ending, region);
    PlacesKept(d.nodes, TailOf(d.keys), key, ending, d.keys, steps, atRoot);
    TakenEarlier(d.keys, key, |steps|, atRoot);
  }

  /** Runs the calls one after the other and completes with the current value. */
  method RunScript(scope: nat, atRoot: bool, calls: seq<Call>, key: string, inputSchema: SchemaRef, outputSchema: SchemaRef)
    returns (r: Result<Region, BuildError>)
    ensures r.Ok? <==> ScriptLaw(calls, key)
    ensures r.Ok? <==> Play(Empty(atRoot), calls, |calls|).Some? && KeyFree(Play(Empty(atRoot), calls, |calls|).value, key)
    ensures r.Ok? ==> var d := Play(Empty(atRoot), calls, |calls|).value;
                      r.value == Ended(d, key, Node.Complete(d.last), inputSchema, outputSchema)
    ensures r.Ok? ==> Says(r.value, calls, key, atRoot) && r.value.nodes[key].Complete?
  {
    ScriptLawIff(atRoot, calls, key);
    var s := new Sequence(scope, atRoot);
    var called := RunCalls(s, calls);
    if called.Err? {
      return Err(called.error);
    }
    r := s.Complete(key, inputSchema, outputSchema);
    if r.Ok? {
      ScriptSays(atRoot, calls, key, Node.Complete(Play(Empty(atRoot), calls, |calls|).value.last), inputSchema, outputSchema);
    }
  }
}
