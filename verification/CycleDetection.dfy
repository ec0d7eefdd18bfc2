/** Depth-first cycle detection over the outgoing edges of a region. */
module CycleDetection {
  import opened Prelude
  import opened Ir
  import opened Graph

  /** A finished part of the graph: nothing leaves it and no cycle passes through it. */
  ghost predicate Settled(g: Outgoing, s: set<Key>) {
    Closed(g, s) && forall k :: k in s ==> !Leads(g, k, k)
  }

  ghost predicate TargetsIn(edges: seq<(Edge, Key)>, s: set<Key>) {
    forall e :: e in edges ==> e.1 in s
  }

  lemma TargetsGrow(edges: seq<(Edge, Key)>, i: nat, s: set<Key>, s': set<Key>)
    requires i < |edges| && TargetsIn(edges[..i], s) && s <= s' && edges[i].1 in s'
    ensures TargetsIn(edges[..i + 1], s')
  {
    assert edges[..i + 1] == edges[..i] + [edges[i]];
  }

  lemma SettledGrows(g: Outgoing, s: set<Key>, k: Key)
    requires Settled(g, s) && k !in s
    requires TargetsIn(Edges(g, k), s)
    ensures Settled(g, s + {k})
  {
    if Leads(g, k, k) {
      var w: seq<Hop> :| w != [] && IsWalk(g, k, w, k);
      WalkFirst(g, k, w, k);
      ClosedWalk(g, s, w[0].target, w[1..], k);
      assert false;
    }
  }

  lemma SettledAcyclic(g: Outgoing, s: set<Key>, start: Key)
    requires Settled(g, s) && start in s
    ensures AcyclicFrom(g, start)
  {
    forall n | Reaches(g, start, n)
      ensures !Leads(g, n, n)
    {
      ClosedReaches(g, s, start, n);
    }
  }

  /** Every node of the current branch leads to `key`. */
  ghost predicate BranchLeads(g: Outgoing, onStack: set<Key>, key: Key) {
    forall s :: s in onStack ==> Leads(g, s, key)
  }

  /** The seen nodes are those of the current branch and finished ones. */
  ghost predicate Partition(g: Outgoing, onStack: set<Key>, seen: set<Key>, done: set<Key>, universe: set<Key>) {
    seen == onStack + done && onStack !! done && seen <= universe && Settled(g, done)
  }

  lemma BranchGrows(g: Outgoing, onStack: set<Key>, hop: Hop)
    requires BranchLeads(g, onStack, hop.source) && HasHop(g, hop)
    ensures BranchLeads(g, onStack + {hop.source}, hop.target)
  {
    HopLeads(g, hop);
    forall s | s in onStack
      ensures Leads(g, s, hop.target)
    {
      ReachesTrans(g, s, hop.source, hop.target);
    }
  }

  /** What holds when the visit goes on from `hop.source` to `hop.target`. */
  lemma Descend(start: Key, g: Outgoing, onStack: set<Key>, universe: set<Key>, hop: Hop)
    requires Closed(g, universe) && hop.source in universe && hop.source in onStack
    requires Reaches(g, start, hop.source) && BranchLeads(g, onStack - {hop.source}, hop.source) && HasHop(g, hop)
    ensures hop.target in universe && Reaches(g, start, hop.target) && BranchLeads(g, onStack, hop.target)
  {
    HopLeads(g, hop);
    ReachesTrans(g, start, hop.source, hop.target);
    BranchGrows(g, onStack - {hop.source}, hop);
  }

  lemma Enter(g: Outgoing, onStack: set<Key>, seen: set<Key>, done: set<Key>, universe: set<Key>, key: Key)
    requires Partition(g, onStack, seen, done, universe) && key in universe && key !in onStack
    ensures onStack + {key} - {key} == onStack
    ensures key in seen ==> key in done
    ensures key !in seen ==> Partition(g, onStack + {key}, seen + {key}, done, universe)
    ensures key !in seen ==> |universe - (seen + {key})| < |universe - seen|
  {
    if key !in seen {
      Shrinks(universe, seen, seen + {key}, key);
    }
  }

  lemma Finish(g: Outgoing, onStack: set<Key>, seen: set<Key>, done: set<Key>, universe: set<Key>, key: Key)
    requires Partition(g, onStack + {key}, seen, done, universe) && key !in onStack
    requires TargetsIn(Edges(g, key), done)
    ensures Partition(g, onStack, seen, done + {key}, universe)
  {
    SettledGrows(g, done, key);
  }

  /**
   * Visits `key` with the nodes of the current branch on the stack; the other seen nodes
   * are `done`. Success leaves the stack as it was and finishes everything newly seen; an
   * error names a reachable node that lies on a cycle.
   */
  method Visit(start: Key, key: Key, g: Outgoing, onStack: set<Key>, seen: set<Key>,
               ghost done: set<Key>, ghost universe: set<Key>)
    returns (r: Result<(), Key>, onStack': set<Key>, seen': set<Key>, ghost done': set<Key>)
    requires Closed(g, universe) && key in universe && Reaches(g, start, key)
    requires Partition(g, onStack, seen, done, universe) && BranchLeads(g, onStack, key)
    ensures r.Ok? ==> onStack' == onStack && Partition(g, onStack', seen', done', universe)
    ensures r.Ok? ==> done <= done' && key in done'
    ensures r.Err? ==> Reaches(g, start, r.error) && Leads(g, r.error, r.error)
    decreases |universe - seen|, 0
  {
    if key in onStack {
      return Err(key), onStack, seen, done;
    }
    Enter(g, onStack, seen, done, universe, key);
    r, onStack', seen', done' := Ok(()), onStack + {key}, seen, done;
    if key !in seen {
      r, onStack', seen', done' := VisitTargets(start, key, g, onStack', seen + {key}, done, universe);
      if r.Err? {
        return;
      }
      Finish(g, onStack, seen', done', universe, key);
      done' := done' + {key};
    }
    onStack' := onStack' - {key};
  }

  /** Visits the targets of `key`, which was put on the stack last. */
  method VisitTargets(start: Key, key: Key, g: Outgoing, onStack: set<Key>, seen: set<Key>,
                      ghost done: set<Key>, ghost universe: set<Key>)
    returns (r: Result<(), Key>, onStack': set<Key>, seen': set<Key>, ghost done': set<Key>)
    requires Closed(g, universe) && key in universe && Reaches(g, start, key)
    requires Partition(g, onStack, seen, done, universe) && key in onStack && BranchLeads(g, onStack - {key}, key)
    ensures r.Ok? ==> onStack' == onStack && Partition(g, onStack', seen', done', universe)
    ensures r.Ok? ==> done <= done' && TargetsIn(Edges(g, key), done')
    ensures r.Err? ==> Reaches(g, start, r.error) && Leads(g, r.error, r.error)
    decreases |universe - seen|, 1
  {
    r, onStack', seen', done' := Ok(()), onStack, seen, done;
    var edges := Edges(g, key);
    for i := 0 to |edges|
      invariant r.Ok? && onStack' == onStack && Partition(g, onStack', seen', done', universe)
      invariant done <= done' && TargetsIn(edges[..i], done')
    {
      Descend(start, g, onStack, universe, Hop(key, edges[i].0, edges[i].1));
      SubsetSize(universe - seen', universe - seen);
      ghost var before := done';
      r, onStack', seen', done' := Visit(start, edges[i].1, g, onStack', seen', done', universe);
      if r.Err? {
        return;
      }
      TargetsGrow(edges, i, before, done');
    }
    assert edges[..|edges|] == edges;
  }

  /** Accepts exactly the graphs whose part reachable from `start` is acyclic. */
  method DetectCycle(start: Key, g: Outgoing) returns (r: Result<(), Key>)
    ensures r.Ok? <==> AcyclicFrom(g, start)
    ensures r.Err? ==> Reaches(g, start, r.error) && Leads(g, r.error, r.error)
  {
    ghost var universe := {start} + set k, i | k in g && 0 <= i < |g[k]| :: g[k][i].1;
    forall h: Hop | HasHop(g, h)
      ensures h.target in universe
    {
    }
    ReachesRefl(g, start);
    var onStack, seen: set<Key>;
    ghost var done: set<Key>;
    r, onStack, seen, done := Visit(start, start, g, {}, {}, {}, universe);
    if r.Ok? {
      SettledAcyclic(g, done, start);
    }
  }
}
