/** The intermediate representation: regions, nodes and their outgoing edges. */
module Ir {
  import opened Prelude
  import opened Bindings

  type SchemaRef = string

  datatype ActivityKey = ActivityKey(name: string, version: nat)

  datatype PathSeg =
    | Root
    | Node(key: Key)
    | Body
    | Branch(name: string)
    | Case(name: string)
    | Default

  type RegionPath = seq<PathSeg>

  datatype Compensation =
    | CompensateWith(activity: ActivityKey, input: Binding)
    | Irreversible(reason: string)

  datatype ChooseCase = ChooseCase(name: string, when: Condition, body: Region)

  datatype ParallelBranch = ParallelBranch(name: string, input: Binding, body: Region)

  datatype Region = Region(
    path: RegionPath,
    inputSchema: SchemaRef,
    outputSchema: SchemaRef,
    start: Key,
    nodes: map<Key, Node>)

  datatype Node =
    | Activity(activity: ActivityKey, input: Binding, compensation: Option<Compensation>, next: Key)
    | Choose(input: Binding, cases: seq<ChooseCase>, default: Region, next: Key)
    | Delay(duration: Binding, next: Key)
    | WaitUntil(at: Binding, next: Key)
    | WaitSignal(signal: string, key: Binding, timeoutMs: Option<nat>, next: Key, onTimeout: Option<Key>)
    | Complete(output: Binding)
    | Fail(code: string, message: string)
    | While(state: Binding, stateSchema: SchemaRef, condition: Condition, maxIterations: nat, body: Region, next: Key)
    | DoWhile(state: Binding, stateSchema: SchemaRef, condition: Condition, maxIterations: nat, body: Region, next: Key)
    | Repeat(count: Binding, state: Binding, stateSchema: SchemaRef, maxIterations: nat, body: Region, next: Key)
    | Foreach(items: Binding, itemSchema: SchemaRef, maxItems: nat, maxConcurrency: nat, body: Region, next: Key)
    | Parallel(branches: seq<ParallelBranch>, next: Key)
    | Saga(input: Binding, body: Region, next: Key)

  datatype Edge = Next | Timeout

  /** Every non-terminal has a next edge; only a signal wait may also have a timeout edge. */
  function Successors(node: Node): seq<(Edge, Key)> {
    match node
    case Complete(_) => []
    case Fail(_, _) => []
    case WaitSignal(_, _, _, next, Some(timeout)) => [(Next, next), (Timeout, timeout)]
    case _ => [(Next, node.next)]
  }

  predicate Terminal(node: Node) {
    node.Complete? || node.Fail?
  }

  /** `node` with its next edge redirected; terminal nodes have none. */
  function WithNext(node: Node, to: Key): Node {
    match node
    case Activity(activity, input, compensation, _) => Activity(activity, input, compensation, to)
    case Choose(input, cases, default, _) => Choose(input, cases, default, to)
    case Delay(duration, _) => Delay(duration, to)
    case WaitUntil(at, _) => WaitUntil(at, to)
    case WaitSignal(signal, key, timeoutMs, _, onTimeout) => WaitSignal(signal, key, timeoutMs, to, onTimeout)
    case While(state, schema, condition, max, body, _) => While(state, schema, condition, max, body, to)
    case DoWhile(state, schema, condition, max, body, _) => DoWhile(state, schema, condition, max, body, to)
    case Repeat(count, state, schema, max, body, _) => Repeat(count, state, schema, max, body, to)
    case Foreach(items, schema, max, concurrency, body, _) => Foreach(items, schema, max, concurrency, body, to)
    case Parallel(branches, _) => Parallel(branches, to)
    case Saga(input, body, _) => Saga(input, body, to)
    case Complete(_) => node
    case Fail(_, _) => node
  }

  /** A terminal node has no next one. */
  predicate HasNext(node: Node) {
    !node.Complete? && !node.Fail?
  }

  /** Setting the next node sets it and nothing else; a terminal node stays as it is. */
  lemma WithNextLaws(node: Node, to: Key, other: Key)
    ensures HasNext(node) ==> WithNext(node, to).next == to && WithNext(node, node.next) == node
    ensures !HasNext(node) ==> WithNext(node, to) == node
    ensures WithNext(WithNext(node, to), other) == WithNext(node, other)
  {
  }

  /** The regions nested directly inside a node, in source order. */
  function ChildRegions(node: Node): (children: seq<Region>)
    ensures forall child :: child in children ==> child < node
  {
    match node
    case Choose(_, cases, default, _) =>
      seq(|cases|, i requires 0 <= i < |cases| => cases[i].body) + [default]
    case While(_, _, _, _, body, _) => [body]
    case DoWhile(_, _, _, _, body, _) => [body]
    case Repeat(_, _, _, _, body, _) => [body]
    case Foreach(_, _, _, _, body, _) => [body]
    case Saga(_, body, _) => [body]
    case Parallel(branches, _) =>
      seq(|branches|, i requires 0 <= i < |branches| => branches[i].body)
    case _ => []
  }
}
