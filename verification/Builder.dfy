/** The mutable draft of a region: nodes are declared with exits that point at themselves, then connected. */
module Builder {
  import opened Prelude
  import opened Ir
  import opened Codecs
  import opened RegionAnalysis
  import opened Validation
  import opened Chain

  datatype NodeRef = NodeRef(key: Key, scope: nat)
  datatype EntryPort = EntryPort(node: Key, scope: nat)
  datatype ExitPort = ExitPort(node: Key, scope: nat, timeout: bool)

  datatype BuildError =
    | InvalidKey
    | DuplicateKey
    | CrossRegion
    | StartTaken
    | NoSuchSource
    | TimeoutTaken
    | NoTimeoutPort
    | TerminalExit
    | NotAnActivity
    | MissingStart
    | InvalidNames
    | NoCases
    | OutOfRange
    | UnknownSchema
    | NotDigestible
    | Invalid(cause: AnalysisError)

  /** One exit of `node` redirected to `target`. */
  function Redirect(node: Node, timeout: bool, target: Key): Result<Node, BuildError> {
    match node
    case Complete(_) => Err(TerminalExit)
    case Fail(_, _) => Err(TerminalExit)
    case WaitSignal(_, _, _, _, onTimeout) =>
      if timeout then
        if onTimeout.Some? then Err(TimeoutTaken) else Ok(node.(onTimeout := Some(target)))
      else
        Ok(WithNext(node, target))
    case _ => if timeout then Err(NoTimeoutPort) else Ok(WithNext(node, target))
  }

  /** The exit is there and, for a timeout, still free. */
  predicate Connectable(node: Node, timeout: bool) {
    HasNext(node) && (timeout ==> node.WaitSignal? && node.onTimeout.None?)
  }

  /** Connecting an exit leads that exit to the target and changes no other exit and nothing else of the node. */
  lemma RedirectLaw(node: Node, timeout: bool, target: Key)
    ensures Redirect(node, timeout, target).Ok? <==> Connectable(node, timeout)
    ensures Connectable(node, timeout) && !timeout ==>
              var node' := Redirect(node, timeout, target).value;
              HasNext(node') && node'.next == target && WithNext(node', node.next) == node
    ensures Connectable(node, timeout) && timeout ==>
              Redirect(node, timeout, target).value == WaitSignal(node.signal, node.key, node.timeoutMs, node.next, Some(target))
  {
  }

  // ----- chains under construction -----

  /** The draft is one chain from its start to its tail, and only the tail is unconnected. */
  ghost predicate Open(nodes: map<Key, Node>, start: Option<Key>, tail: Option<Key>, keys: seq<Key>) {
    && Linked(nodes, keys)
    && (forall k :: k in keys ==> Exits(nodes[k]))
    && if keys == [] then
         start.None? && tail.None?
       else
         var last := keys[|keys| - 1];
         start == Some(keys[0]) && tail == Some(last) && nodes[last].next == last
  }

  /** The nodes after the tail was connected to a new key. */
  function TailLinked(nodes: map<Key, Node>, tail: Option<Key>, key: Key): map<Key, Node> {
    if tail.Some? && tail.value in nodes then nodes[tail.value := WithNext(nodes[tail.value], key)] else nodes
  }

  lemma OpenTail(nodes: map<Key, Node>, start: Option<Key>, tail: Option<Key>, keys: seq<Key>)
    requires Open(nodes, start, tail, keys)
    ensures tail.Some? ==> tail.value in nodes && Exits(nodes[tail.value]) && keys != [] && tail.value == keys[|keys| - 1]
    ensures tail.None? <==> keys == []
  {
  }

  /** The new node is declared before the tail is connected to it; the order does not matter. */
  lemma LinkCommutes(nodes: map<Key, Node>, tail: Option<Key>, key: Key, node: Node)
    requires key !in nodes && (tail.Some? ==> tail.value in nodes)
    ensures TailLinked(nodes[key := node], tail, key) == TailLinked(nodes, tail, key)[key := node]
  {
  }

  lemma LinkedGrows(nodes: map<Key, Node>, start: Option<Key>, tail: Option<Key>, keys: seq<Key>, key: Key, node: Node)
    requires Open(nodes, start, tail, keys) && key !in nodes
    ensures Linked(TailLinked(nodes, tail, key)[key := node], keys + [key])
  {
    OpenTail(nodes, start, tail, keys);
    var keys', nodes' := keys + [key], TailLinked(nodes, tail, key)[key := node];
    forall i | 0 <= i < |keys'| - 1
      ensures Exits(nodes'[keys'[i]]) && nodes'[keys'[i]].next == keys'[i + 1]
    {
      assert keys[i] in keys;
      assert i < |keys| - 1 ==> keys[i] != keys[|keys| - 1];
    }
  }

  lemma OpenGrows(nodes: map<Key, Node>, start: Option<Key>, tail: Option<Key>, keys: seq<Key>, key: Key, node: Node)
    requires Open(nodes, start, tail, keys) && key !in nodes && Exits(node) && node.next == key
    ensures Open(TailLinked(nodes, tail, key)[key := node], if keys == [] then Some(key) else start, Some(key), keys + [key])
  {
    LinkedGrows(nodes, start, tail, keys, key, node);
    OpenTail(nodes, start, tail, keys);
    var nodes' := TailLinked(nodes, tail, key)[key := node];
    forall k | k in keys + [key]
      ensures Exits(nodes'[k])
    {
      assert k != key ==> k in keys;
    }
  }

  lemma OpenCloses(nodes: map<Key, Node>, start: Option<Key>, tail: Option<Key>, keys: seq<Key>, key: Key, node: Node, region: Region)
    requires Open(nodes, start, tail, keys) && key !in nodes && Terminal(node)
    requires region.nodes == TailLinked(nodes, tail, key)[key := node]
    requires region.start == if keys == [] then key else keys[0]
    ensures CompleteChain(region, keys + [key])
  {
    LinkedGrows(nodes, start, tail, keys, key, node);
  }

  // ----- the draft -----

  class RegionGraphBuilder {
    const scope: nat
    var nodes: map<Key, Node>
    var start: Option<Key>
    var tail: Option<Key>
    ghost var keys: seq<Key>

    constructor (scope: nat)
      ensures this.scope == scope && nodes == map[] && start == None && tail == None && keys == []
    {
      this.scope := scope;
      nodes, start, tail, keys := map[], None, None, [];
    }

    ghost predicate Chained()
      reads this
    {
      Open(nodes, start, tail, keys)
    }

    method StartAt(entry: EntryPort) returns (r: Result<(), BuildError>)
      modifies this`start
      ensures r.Ok? <==> entry.scope == scope && old(start).None?
      ensures start == if r.Ok? then Some(entry.node) else old(start)
    {
      if entry.scope != scope {
        return Err(CrossRegion);
      }
      if start.Some? {
        return Err(StartTaken);
      }
      start := Some(entry.node);
      r := Ok(());
    }

    method Connect(exit: ExitPort, entry: EntryPort) returns (r: Result<(), BuildError>)
      modifies this`nodes
      ensures r.Ok? <==> exit.scope == scope && entry.scope == scope && exit.node in old(nodes) &&
                         Redirect(old(nodes)[exit.node], exit.timeout, entry.node).Ok?
      ensures r.Ok? ==> nodes == old(nodes)[exit.node := Redirect(old(nodes)[exit.node], exit.timeout, entry.node).value]
      ensures r.Err? ==> nodes == old(nodes)
    {
      if exit.scope != scope || entry.scope != scope {
        return Err(CrossRegion);
      }
      if exit.node !in nodes {
        return Err(NoSuchSource);
      }
      var redirected := Redirect(nodes[exit.node], exit.timeout, entry.node);
      if redirected.Err? {
        return Err(redirected.error);
      }
      nodes := nodes[exit.node := redirected.value];
      r := Ok(());
    }

    /** The shared core of all node declarations; an exit that is not connected yet loops onto the node itself. */
    method Declare(key: string, node: Node) returns (r: Result<NodeRef, BuildError>)
      modifies this`nodes
      ensures r.Ok? <==> ValidNodeKey(key) && key !in old(nodes)
      ensures r.Ok? ==> r.value == NodeRef(key, scope) && nodes == old(nodes)[key := WithNext(node, key)]
      ensures r.Err? ==> nodes == old(nodes)
    {
      if !ValidNodeKey(key) {
        return Err(InvalidKey);
      }
      if key in nodes {
        return Err(DuplicateKey);
      }
      nodes := nodes[key := WithNext(node, key)];
      r := Ok(NodeRef(key, scope));
    }

    method SetCompensation(key: Key, compensation: Compensation) returns (r: Result<(), BuildError>)
      modifies this`nodes
      ensures r.Ok? <==> key in old(nodes) && old(nodes)[key].Activity?
      ensures r.Ok? ==> nodes == old(nodes)[key := old(nodes)[key].(compensation := Some(compensation))]
      ensures r.Err? ==> nodes == old(nodes)
    {
      if key !in nodes || !nodes[key].Activity? {
        return Err(NotAnActivity);
      }
      nodes := nodes[key := nodes[key].(compensation := Some(compensation))];
      r := Ok(());
    }

    method Finish(inputSchema: SchemaRef, outputSchema: SchemaRef) returns (r: Result<Region, BuildError>)
      ensures r.Ok? <==> start.Some?
      ensures r.Ok? ==> r.value == Region([Root], inputSchema, outputSchema, start.value, nodes)
    {
      if start.None? {
        return Err(MissingStart);
      }
      r := Ok(Region([Root], inputSchema, outputSchema, start.value, nodes));
    }

    /** Connects the tail to a declared node, or starts the region there. */
    method LinkTail(entry: EntryPort) returns (r: Result<(), BuildError>)
      requires tail.Some? ==> tail.value in nodes && !Terminal(nodes[tail.value])
      requires tail.None? ==> start.None?
      requires entry.scope == scope
      modifies this`nodes, this`start
      ensures r.Ok? && nodes == TailLinked(old(nodes), tail, entry.node)
      ensures start == if tail.Some? then old(start) else Some(entry.node)
    {
      if tail.Some? {
        r := Connect(ExitPort(tail.value, scope, false), entry);
      } else {
        r := StartAt(entry);
      }
    }

    /** Declares a node with an exit at the end of the chain. */
    method Append(key: string, node: Node) returns (r: Result<NodeRef, BuildError>)
      requires Chained() && Exits(node)
      modifies this
      ensures Chained()
      ensures r.Ok? <==> ValidNodeKey(key) && key !in old(nodes)
      ensures r.Ok? ==> r.value == NodeRef(key, scope) && keys == old(keys) + [key]
      ensures r.Ok? ==> start == Some(keys[0]) && tail == Some(key)
      ensures r.Ok? ==> nodes == TailLinked(old(nodes), old(tail), key)[key := WithNext(node, key)]
      ensures r.Err? ==> nodes == old(nodes) && start == old(start) && tail == old(tail) && keys == old(keys)
    {
      ghost var nodes0, start0, tail0, keys0 := nodes, start, tail, keys;
      OpenTail(nodes, start, tail, keys);
      r := Declare(key, node);
      if r.Err? {
        return;
      }
      OpenGrows(nodes0, start0, tail0, keys0, key, WithNext(node, key));
      LinkCommutes(nodes0, tail0, key, WithNext(node, key));
      var linked := LinkTail(EntryPort(key, scope));
      tail := Some(key);
      keys := keys + [key];
    }

    /** Declares the terminal node, links it and finishes the region. */
    method Close(key: string, node: Node, inputSchema: SchemaRef, outputSchema: SchemaRef) returns (r: Result<Region, BuildError>)
      requires Chained() && Terminal(node)
      modifies this
      ensures r.Ok? <==> ValidNodeKey(key) && key !in old(nodes)
      ensures r.Ok? ==> CompleteChain(r.value, old(keys) + [key]) && r.value.inputSchema == inputSchema && r.value.outputSchema == outputSchema
      ensures r.Ok? ==> r.value.nodes == TailLinked(old(nodes), old(tail), key)[key := node] && r.value.path == [Root]
    {
      ghost var nodes0, start0, tail0, keys0 := nodes, start, tail, keys;
      OpenTail(nodes, start, tail, keys);
      var declared := Declare(key, node);
      if declared.Err? {
        return Err(declared.error);
      }
      assert WithNext(node, key) == node;
      LinkCommutes(nodes0, tail0, key, node);
      var linked := LinkTail(EntryPort(key, scope));
      r := Finish(inputSchema, outputSchema);
      OpenCloses(nodes0, start0, tail0, keys0, key, node, r.value);
    }
  }

  // ----- publishing -----

  /**
   * Publishes exactly what validates, with schemas the catalog knows and canonical text that can be
   * hashed. Then every next port at every level is connected, but a timed wait may lack its timeout
   * target: no exit at all is unconnected exactly if none does.
   */
  method Build(name: string, version: nat, root: Region, schemas: set<SchemaRef>, text: Definition -> Option<nat>)
    returns (r: Result<Definition, BuildError>)
    ensures var d := Definition(name, version, root.inputSchema, root.outputSchema, map[], None, root);
            && (r.Ok? <==> && root.inputSchema in schemas && root.outputSchema in schemas
                           && DefinitionValid(d) && Digestible(text, d))
            && (r.Ok? ==> r.value == d && Everywhere(root, NextSet))
            && (r.Ok? ==> (Everywhere(root, ExitsSet) <==> Everywhere(root, TimeoutSet)))
  {
    if root.inputSchema !in schemas || root.outputSchema !in schemas {
      return Err(UnknownSchema);
    }
    var definition := Definition(name, version, root.inputSchema, root.outputSchema, map[], None, root);
    var checked := ValidateDefinition(definition);
    if checked.Err? {
      return Err(Invalid(checked.error));
    }
    if !Digestible(text, definition) {
      return Err(NotDigestible);
    }
    AcceptedExitsSetIff(root, RootCtx(root.inputSchema, root.outputSchema));
    r := Ok(definition);
  }
}
