/**
 * When the stack-driven pop order is topological. A timed wait pushes its next port and
 * then its timeout port, so the timeout side is walked first; the order goes wrong exactly
 * when the two sides meet at a node that is not behind the next port.
 */
module PopOrder {
  import opened Prelude
  import opened Ir
  import opened Graph
  import opened Availability
  import opened Exactness

  /** A node with two ports: the first edge is its next port, the second its timeout port. */
  ghost predicate Fork(g: Outgoing, b: Key) {
    |Edges(g, b)| == 2
  }

  ghost function NextPort(g: Outgoing, b: Key): Key
    requires Fork(g, b)
  {
    Edges(g, b)[0].1
  }

  ghost function TimeoutPort(g: Outgoing, b: Key): Key
    requires Fork(g, b)
  {
    Edges(g, b)[1].1
  }

  ghost predicate TwoPorted(g: Outgoing) {
    forall k :: |Edges(g, k)| <= 2
  }

  ghost predicate Disjoint(g: Outgoing, a: Key, b: Key) {
    forall n :: !(Reaches(g, a, n) && Reaches(g, b, n))
  }

  /**
   * At every reachable fork, either the timeout side leads back into the next port, or the
   * two sides never meet.
   */
  ghost predicate ForksRejoinAtNext(g: Outgoing, start: Key) {
    forall b :: Reaches(g, start, b) && Fork(g, b) ==>
      || Reaches(g, TimeoutPort(g, b), NextPort(g, b))
      || Disjoint(g, NextPort(g, b), TimeoutPort(g, b))
  }

  // ----- facts about one state of the worklist -----

  lemma ForkHops(g: Outgoing, b: Key)
    requires Fork(g, b)
    ensures HasHop(g, Hop(b, Edges(g, b)[0].0, NextPort(g, b)))
    ensures HasHop(g, Hop(b, Edges(g, b)[1].0, TimeoutPort(g, b)))
    ensures Leads(g, b, NextPort(g, b)) && Leads(g, b, TimeoutPort(g, b))
  {
    HopLeads(g, Hop(b, Edges(g, b)[0].0, NextPort(g, b)));
    HopLeads(g, Hop(b, Edges(g, b)[1].0, TimeoutPort(g, b)));
  }

  lemma AtReaches(f: Flow, s: Sweep, k: Key)
    requires Sound(f, s) && k in s.at
    ensures Reaches(f.out, f.start, k)
  {
    assert Entered(f, s.rank, k, |s.rank|);
    if k == f.start {
      ReachesRefl(f.out, k);
    } else {
      var h: Hop :| HasHop(f.out, h) && h.target == k && h.source in s.rank && s.rank[h.source] < |s.rank|;
      EnteredReaches(f, s, h.source);
      HopLeads(f.out, h);
      ReachesTrans(f.out, f.start, h.source, k);
    }
  }

  /** Popped nodes come after everything that leads to them. */
  ghost predicate Ordered(f: Flow, rank: map<Key, nat>) {
    forall h: Hop :: HasHop(f.out, h) && Reaches(f.out, f.start, h.source) && h.target in rank ==>
      h.source in rank && rank[h.source] < rank[h.target]
  }

  lemma {:induction false} OrderedWalk(f: Flow, rank: map<Key, nat>, a: Key, w: seq<Hop>, b: Key)
    requires Ordered(f, rank) && Reaches(f.out, f.start, a) && IsWalk(f.out, a, w, b) && b in rank
    ensures a in rank && rank[a] <= rank[b]
    decreases |w|
  {
    if w != [] {
      var h := w[|w| - 1];
      assert Reaches(f.out, a, h.source);
      ReachesTrans(f.out, f.start, a, h.source);
      OrderedWalk(f, rank, a, w[..|w| - 1], h.source);
    }
  }

  lemma OrderedReaches(f: Flow, rank: map<Key, nat>, a: Key, b: Key)
    requires Ordered(f, rank) && Reaches(f.out, f.start, a) && Reaches(f.out, a, b) && b in rank
    ensures a in rank && rank[a] <= rank[b]
  {
    var w :| IsWalk(f.out, a, w, b);
    OrderedWalk(f, rank, a, w, b);
  }

  /** `x` is not popped, and it is `a` or the target of a popped node that `a` reaches. */
  ghost predicate Frontier(f: Flow, rank: map<Key, nat>, a: Key, x: Key) {
    && x !in rank
    && (x == a || exists h: Hop :: HasHop(f.out, h) && h.target == x && h.source in rank && Reaches(f.out, a, h.source))
  }

  lemma {:induction false} FrontierOnWalk(f: Flow, rank: map<Key, nat>, a: Key, w: seq<Hop>, b: Key) returns (x: Key)
    requires IsWalk(f.out, a, w, b) && b !in rank
    ensures Frontier(f, rank, a, x) && Reaches(f.out, x, b)
    decreases |w|
  {
    if w == [] {
      x := a;
      ReachesRefl(f.out, a);
    } else {
      var h := w[|w| - 1];
      if h.source in rank {
        x := b;
        assert Reaches(f.out, a, h.source);
        ReachesRefl(f.out, b);
      } else {
        x := FrontierOnWalk(f, rank, a, w[..|w| - 1], h.source);
        HopLeads(f.out, h);
        ReachesTrans(f.out, x, h.source, b);
      }
    }
  }

  lemma FrontierBetween(f: Flow, rank: map<Key, nat>, a: Key, b: Key) returns (x: Key)
    requires Reaches(f.out, a, b) && b !in rank
    ensures Frontier(f, rank, a, x) && Reaches(f.out, x, b)
  {
    var w :| IsWalk(f.out, a, w, b);
    x := FrontierOnWalk(f, rank, a, w, b);
  }

  // ----- the stack -----

  /**
   * Stack place `i` holds the next port of the popped fork `b`; everything above it is
   * reached from the timeout port, and all that is left to pop of that side is above it.
   */
  ghost predicate Guard(f: Flow, s: Sweep, b: Key, i: nat) {
    && b in s.rank && Fork(f.out, b)
    && i < |s.pending| && s.pending[i] == NextPort(f.out, b)
    && (forall j :: i < j < |s.pending| ==> Reaches(f.out, TimeoutPort(f.out, b), s.pending[j]))
    && (forall x :: Frontier(f, s.rank, TimeoutPort(f.out, b), x) ==> x in s.pending[i + 1..])
  }

  ghost predicate Guarded(f: Flow, s: Sweep, i: nat) {
    exists b :: Guard(f, s, b, i)
  }

  ghost predicate Waiting(f: Flow, s: Sweep, b: Key) {
    exists i: nat :: Guard(f, s, b, i)
  }

  ghost predicate StackGuarded(f: Flow, s: Sweep) {
    forall i: nat :: i + 1 < |s.pending| ==> Guarded(f, s, i)
  }

  ghost predicate ForksWait(f: Flow, s: Sweep) {
    forall b :: b in s.rank && Fork(f.out, b) && NextPort(f.out, b) !in s.rank ==> Waiting(f, s, b)
  }

  /** A target that is not popped yet still waits where its popped source put it, below only what that source reaches. */
  ghost predicate WaitsAt(g: Outgoing, pending: seq<Key>, h: Hop, i: nat) {
    i < |pending| && pending[i] == h.target && forall j :: i < j < |pending| ==> Reaches(g, h.source, pending[j])
  }

  ghost predicate Waits(g: Outgoing, pending: seq<Key>, h: Hop) {
    exists i: nat :: WaitsAt(g, pending, h, i)
  }

  ghost predicate Traced(f: Flow, s: Sweep) {
    forall h: Hop :: HasHop(f.out, h) && h.source in s.rank && h.target !in s.rank ==> Waits(f.out, s.pending, h)
  }

  /** The whole timeout side of a popped fork is popped before its next port, unless it leads there. */
  ghost predicate TimeoutFirst(f: Flow, s: Sweep) {
    forall b, n ::
      b in s.rank && Fork(f.out, b) && NextPort(f.out, b) in s.rank &&
      !Reaches(f.out, TimeoutPort(f.out, b), NextPort(f.out, b)) && Reaches(f.out, TimeoutPort(f.out, b), n) ==>
      n in s.rank && s.rank[n] < s.rank[NextPort(f.out, b)]
  }

  // ----- one step -----

  ghost function TargetSeq(edges: seq<(Edge, Key)>): seq<Key>
    decreases |edges|
  {
    if edges == [] then [] else TargetSeq(edges[..|edges| - 1]) + [edges[|edges| - 1].1]
  }

  lemma {:induction false} PushEdgesPending(f: Flow, key: Key, edges: seq<(Edge, Key)>, s: Sweep)
    requires key in s.at
    ensures PushEdges(f, key, edges, s).pending == s.pending + TargetSeq(edges)
    decreases |edges|
  {
    if edges != [] {
      PushEdgesPending(f, key, edges[..|edges| - 1], s);
    }
  }

  lemma {:induction false} TargetSeqHas(edges: seq<(Edge, Key)>, x: Key)
    ensures |TargetSeq(edges)| == |edges|
    ensures x in TargetSeq(edges) <==> exists e :: e in edges && e.1 == x
    decreases |edges|
  {
    if edges != [] {
      var front, e := edges[..|edges| - 1], edges[|edges| - 1];
      TargetSeqHas(front, x);
      assert edges == front + [e];
    }
  }

  ghost function Top(s: Sweep): Key
    requires s.pending != []
  {
    s.pending[|s.pending| - 1]
  }

  lemma StepPending(f: Flow, s: Sweep)
    requires Sound(f, s) && s.pending != [] && Top(s) !in s.rank
    ensures Step(f, s).pending == s.pending[..|s.pending| - 1] + TargetSeq(Edges(f.out, Top(s)))
    ensures Step(f, s).rank == s.rank[Top(s) := |s.rank|]
  {
    var popped := s.(pending := s.pending[..|s.pending| - 1]);
    PushEdgesPending(f, Top(s), Edges(f.out, Top(s)), Mark(Top(s), popped));
  }

  lemma InTail(xs: seq<Key>, ys: seq<Key>, i: nat, x: Key)
    requires i < |xs| - 1
    ensures x in xs[i + 1..] && x != xs[|xs| - 1] ==> x in (xs[..|xs| - 1] + ys)[i + 1..]
    ensures x in ys ==> x in (xs[..|xs| - 1] + ys)[i + 1..]
  {
    var m := |xs| - 1;
    assert (xs[..m] + ys)[i + 1..] == xs[i + 1..m] + ys;
    assert xs[i + 1..] == xs[i + 1..m] + [xs[m]];
  }

  lemma InPopped(xs: seq<Key>, i: nat, x: Key)
    requires i + 1 < |xs| && x in xs[i + 1..] && x != xs[|xs| - 1]
    ensures x in xs[..|xs| - 1][i + 1..]
  {
    InTail(xs, [], i, x);
    assert xs[..|xs| - 1] + [] == xs[..|xs| - 1];
  }

  lemma GuardPopSeen(f: Flow, s: Sweep, b: Key, i: nat)
    requires s.pending != [] && Top(s) in s.at && Top(s) in s.checked
    requires Guard(f, s, b, i) && i + 1 < |s.pending| && Top(s) in s.rank
    ensures Guard(f, Step(f, s), b, i)
  {
    forall x | Frontier(f, s.rank, TimeoutPort(f.out, b), x)
      ensures x in s.pending[..|s.pending| - 1][i + 1..]
    {
      InPopped(s.pending, i, x);
    }
  }

  lemma FrontierStep(f: Flow, s: Sweep, t: Key, x: Key)
    requires s.pending != [] && Top(s) !in s.rank
    requires Frontier(f, s.rank[Top(s) := |s.rank|], t, x)
    ensures x != Top(s) && (Frontier(f, s.rank, t, x) || x in TargetSeq(Edges(f.out, Top(s))))
  {
    TargetSeqHas(Edges(f.out, Top(s)), x);
    if x != t {
      var h: Hop :| HasHop(f.out, h) && h.target == x && h.source in s.rank[Top(s) := |s.rank|] && Reaches(f.out, t, h.source);
      if h.source == Top(s) {
        assert (h.edge, h.target) in Edges(f.out, Top(s));
      }
    }
  }

  lemma TargetReached(f: Flow, t: Key, key: Key, x: Key)
    requires Reaches(f.out, t, key) && x in TargetSeq(Edges(f.out, key))
    ensures Reaches(f.out, t, x)
  {
    TargetSeqHas(Edges(f.out, key), x);
    var e :| e in Edges(f.out, key) && e.1 == x;
    HopLeads(f.out, Hop(key, e.0, x));
    ReachesTrans(f.out, t, key, x);
  }

  lemma GuardAbove(f: Flow, s: Sweep, b: Key, i: nat, j: nat)
    requires Guard(f, s, b, i) && i + 1 < |s.pending|
    requires i < j < |s.pending| - 1 + |TargetSeq(Edges(f.out, Top(s)))|
    ensures Reaches(f.out, TimeoutPort(f.out, b), (s.pending[..|s.pending| - 1] + TargetSeq(Edges(f.out, Top(s))))[j])
  {
    var m := |s.pending| - 1;
    if j >= m {
      var targets := TargetSeq(Edges(f.out, Top(s)));
      TargetReached(f, TimeoutPort(f.out, b), Top(s), targets[j - m]);
    }
  }

  lemma GuardFrontier(f: Flow, s: Sweep, b: Key, i: nat, x: Key)
    requires Guard(f, s, b, i) && i + 1 < |s.pending| && Top(s) !in s.rank
    requires Frontier(f, s.rank[Top(s) := |s.rank|], TimeoutPort(f.out, b), x)
    ensures x in (s.pending[..|s.pending| - 1] + TargetSeq(Edges(f.out, Top(s))))[i + 1..]
  {
    FrontierStep(f, s, TimeoutPort(f.out, b), x);
    InTail(s.pending, TargetSeq(Edges(f.out, Top(s))), i, x);
  }

  lemma GuardPopNew(f: Flow, s: Sweep, b: Key, i: nat)
    requires Sound(f, s) && Guard(f, s, b, i) && i + 1 < |s.pending| && Top(s) !in s.rank
    ensures Guard(f, Step(f, s), b, i)
  {
    StepPending(f, s);
    forall j | i < j < |Step(f, s).pending|
      ensures Reaches(f.out, TimeoutPort(f.out, b), Step(f, s).pending[j])
    {
      GuardAbove(f, s, b, i, j);
    }
    forall x | Frontier(f, Step(f, s).rank, TimeoutPort(f.out, b), x)
      ensures x in Step(f, s).pending[i + 1..]
    {
      GuardFrontier(f, s, b, i, x);
    }
  }

  /** A popped node that still has an unpopped target below the top leads to the top. */
  lemma TracedLeads(f: Flow, s: Sweep, h: Hop)
    requires Traced(f, s) && s.pending != [] && HasHop(f.out, h) && h.source in s.rank && h.target !in s.rank && h.target != Top(s)
    ensures Reaches(f.out, h.source, Top(s))
  {
    var i: nat :| WaitsAt(f.out, s.pending, h, i);
    assert i < |s.pending| - 1;
  }

  /** Right after a fork is popped, only its timeout port itself is on the frontier of that side. */
  lemma NewFrontier(f: Flow, s: Sweep, x: Key)
    requires Sound(f, s) && s.pending != [] && Top(s) !in s.rank && Fork(f.out, Top(s))
    requires AcyclicFrom(f.out, f.start) && Traced(f, s)
    requires Frontier(f, s.rank[Top(s) := |s.rank|], TimeoutPort(f.out, Top(s)), x)
    ensures x == TimeoutPort(f.out, Top(s))
  {
    var key := Top(s);
    var t := TimeoutPort(f.out, key);
    AtReaches(f, s, key);
    ForkHops(f.out, key);
    if x != t {
      var h: Hop :| HasHop(f.out, h) && h.target == x && h.source in s.rank[key := |s.rank|] && Reaches(f.out, t, h.source);
      ReachesTrans(f.out, key, t, h.source);
      if h.source != key {
        TracedLeads(f, s, h);
        ReachesTrans(f.out, key, h.source, key);
      }
    }
  }

  lemma NewGuard(f: Flow, s: Sweep)
    requires Sound(f, s) && s.pending != [] && Top(s) !in s.rank && Fork(f.out, Top(s))
    requires AcyclicFrom(f.out, f.start) && Traced(f, s)
    ensures Guard(f, Step(f, s), Top(s), |s.pending| - 1)
  {
    StepPending(f, s);
    var key, m, s' := Top(s), |s.pending| - 1, Step(f, s);
    var edges := Edges(f.out, key);
    assert edges[..1][..0] == [] && edges[..1] == [edges[0]];
    assert TargetSeq(edges[..1]) == [edges[0].1];
    assert TargetSeq(edges) == [NextPort(f.out, key), TimeoutPort(f.out, key)];
    ReachesRefl(f.out, TimeoutPort(f.out, key));
    assert s'.pending[m + 1..] == [TimeoutPort(f.out, key)];
    forall x | Frontier(f, s'.rank, TimeoutPort(f.out, key), x)
      ensures x in s'.pending[m + 1..]
    {
      NewFrontier(f, s, x);
    }
  }

  ghost predicate Guards(f: Flow, s: Sweep) {
    StackGuarded(f, s) && ForksWait(f, s) && Traced(f, s)
  }

  lemma WaitsBelow(g: Outgoing, pending: seq<Key>, targets: seq<Key>, h: Hop)
    requires Waits(g, pending, h) && pending[|pending| - 1] != h.target
    requires forall x :: x in targets ==> Reaches(g, h.source, x)
    ensures Waits(g, pending[..|pending| - 1] + targets, h)
  {
    var i: nat :| WaitsAt(g, pending, h, i);
    assert WaitsAt(g, pending[..|pending| - 1] + targets, h, i);
  }

  lemma WaitsOnTop(g: Outgoing, below: seq<Key>, targets: seq<Key>, h: Hop)
    requires h.target in targets && forall x :: x in targets ==> Reaches(g, h.source, x)
    ensures Waits(g, below + targets, h)
  {
    var k: nat :| k < |targets| && targets[k] == h.target;
    assert WaitsAt(g, below + targets, h, |below| + k);
  }

  lemma TargetsReached(f: Flow, t: Key, key: Key)
    requires Reaches(f.out, t, key)
    ensures forall x :: x in TargetSeq(Edges(f.out, key)) ==> Reaches(f.out, t, x)
  {
    forall x | x in TargetSeq(Edges(f.out, key))
      ensures Reaches(f.out, t, x)
    {
      TargetReached(f, t, key, x);
    }
  }

  lemma TracedPopNew(f: Flow, s: Sweep, h: Hop)
    requires s.pending != [] && Traced(f, s)
    requires HasHop(f.out, h) && h.source in s.rank && h.target !in s.rank && h.target != Top(s)
    ensures Waits(f.out, s.pending[..|s.pending| - 1] + TargetSeq(Edges(f.out, Top(s))), h)
  {
    TracedLeads(f, s, h);
    TargetsReached(f, h.source, Top(s));
    WaitsBelow(f.out, s.pending, TargetSeq(Edges(f.out, Top(s))), h);
  }

  lemma TracedNew(f: Flow, below: seq<Key>, h: Hop)
    requires HasHop(f.out, h)
    ensures Waits(f.out, below + TargetSeq(Edges(f.out, h.source)), h)
  {
    ReachesRefl(f.out, h.source);
    TargetsReached(f, h.source, h.source);
    TargetSeqHas(Edges(f.out, h.source), h.target);
    WaitsOnTop(f.out, below, TargetSeq(Edges(f.out, h.source)), h);
  }

  lemma StepTraced(f: Flow, s: Sweep)
    requires Sound(f, s) && s.pending != [] && Traced(f, s)
    ensures Traced(f, Step(f, s))
  {
    if Top(s) !in s.rank {
      StepPending(f, s);
    }
    forall h: Hop | HasHop(f.out, h) && h.source in Step(f, s).rank && h.target !in Step(f, s).rank
      ensures Waits(f.out, Step(f, s).pending, h)
    {
      if Top(s) in s.rank {
        WaitsBelow(f.out, s.pending, [], h);
        assert s.pending[..|s.pending| - 1] + [] == s.pending[..|s.pending| - 1];
      } else if h.source == Top(s) {
        TracedNew(f, s.pending[..|s.pending| - 1], h);
      } else {
        TracedPopNew(f, s, h);
      }
    }
  }

  lemma PopSeenGuarded(f: Flow, s: Sweep, i: nat)
    requires Sound(f, s) && s.pending != [] && StackGuarded(f, s) && Top(s) in s.rank && i + 1 < |s.pending|
    ensures Guarded(f, Step(f, s), i)
  {
    assert Guarded(f, s, i);
    var b :| Guard(f, s, b, i);
    GuardPopSeen(f, s, b, i);
  }

  lemma PopNewGuarded(f: Flow, s: Sweep, i: nat)
    requires Sound(f, s) && s.pending != [] && StackGuarded(f, s) && Top(s) !in s.rank && i + 1 < |s.pending|
    ensures Guarded(f, Step(f, s), i)
  {
    assert Guarded(f, s, i);
    var b :| Guard(f, s, b, i);
    GuardPopNew(f, s, b, i);
  }

  /** Only a fork leaves a new entry below the top. */
  lemma NewEntryIsFork(f: Flow, s: Sweep, i: nat)
    requires Sound(f, s) && s.pending != [] && Top(s) !in s.rank && TwoPorted(f.out)
    requires |s.pending| - 1 <= i && i + 1 < |Step(f, s).pending|
    ensures Fork(f.out, Top(s)) && i == |s.pending| - 1
  {
    StepPending(f, s);
    TargetSeqHas(Edges(f.out, Top(s)), Top(s));
  }

  lemma NewEntryGuarded(f: Flow, s: Sweep, i: nat)
    requires Sound(f, s) && s.pending != [] && Top(s) !in s.rank && Fork(f.out, Top(s)) && i == |s.pending| - 1
    requires AcyclicFrom(f.out, f.start) && Traced(f, s)
    ensures Guarded(f, Step(f, s), i)
  {
    NewGuard(f, s);
  }

  lemma StepStackGuarded(f: Flow, s: Sweep, i: nat)
    requires Sound(f, s) && s.pending != [] && StackGuarded(f, s) && TwoPorted(f.out)
    requires AcyclicFrom(f.out, f.start) && Traced(f, s)
    requires i + 1 < |Step(f, s).pending|
    ensures Guarded(f, Step(f, s), i)
  {
    if Top(s) in s.rank {
      PopSeenGuarded(f, s, i);
    } else if i + 1 < |s.pending| {
      PopNewGuarded(f, s, i);
    } else {
      NewEntryIsFork(f, s, i);
      NewEntryGuarded(f, s, i);
    }
  }

  lemma StepForksWait(f: Flow, s: Sweep, b: Key)
    requires Sound(f, s) && s.pending != [] && ForksWait(f, s)
    requires AcyclicFrom(f.out, f.start) && Traced(f, s)
    requires b in Step(f, s).rank && Fork(f.out, b) && NextPort(f.out, b) !in Step(f, s).rank
    ensures Waiting(f, Step(f, s), b)
  {
    if Top(s) !in s.rank {
      StepPending(f, s);
    }
    if b in s.rank {
      assert Waiting(f, s, b);
      var i: nat :| Guard(f, s, b, i);
      if Top(s) in s.rank {
        GuardPopSeen(f, s, b, i);
      } else {
        GuardPopNew(f, s, b, i);
      }
    } else {
      NewGuard(f, s);
    }
  }

  /** The last stack entry of a fork's next port is popped only when the timeout side is exhausted. */
  lemma TimeoutSideDone(f: Flow, s: Sweep, b: Key, n: Key)
    requires s.pending != [] && Waiting(f, s, b) && Fork(f.out, b) && Top(s) == NextPort(f.out, b)
    requires !Reaches(f.out, TimeoutPort(f.out, b), NextPort(f.out, b)) && Reaches(f.out, TimeoutPort(f.out, b), n)
    ensures n in s.rank
  {
    var i: nat :| Guard(f, s, b, i);
    assert i == |s.pending| - 1 && s.pending[i + 1..] == [];
    if n !in s.rank {
      var x := FrontierBetween(f, s.rank, TimeoutPort(f.out, b), n);
    }
  }

  lemma StepTimeoutFirst(f: Flow, s: Sweep, b: Key, n: Key)
    requires Sound(f, s) && s.pending != [] && Top(s) !in s.rank && ForksWait(f, s) && TimeoutFirst(f, s)
    requires AcyclicFrom(f.out, f.start) && Ordered(f, s.rank)
    requires var rank := s.rank[Top(s) := |s.rank|]; b in rank && Fork(f.out, b) && NextPort(f.out, b) in rank
    requires !Reaches(f.out, TimeoutPort(f.out, b), NextPort(f.out, b)) && Reaches(f.out, TimeoutPort(f.out, b), n)
    ensures n in s.rank && s.rank[n] < s.rank[Top(s) := |s.rank|][NextPort(f.out, b)]
  {
    if b == Top(s) {
      ForkHops(f.out, b);
      AtReaches(f, s, b);
      assert false;
    } else if NextPort(f.out, b) == Top(s) {
      TimeoutSideDone(f, s, b, n);
    }
  }

  lemma StepGuards(f: Flow, s: Sweep)
    requires Sound(f, s) && s.pending != [] && Guards(f, s) && TwoPorted(f.out) && AcyclicFrom(f.out, f.start)
    ensures Guards(f, Step(f, s))
  {
    StepTraced(f, s);
    forall i: nat | i + 1 < |Step(f, s).pending|
      ensures Guarded(f, Step(f, s), i)
    {
      StepStackGuarded(f, s, i);
    }
    forall b | b in Step(f, s).rank && Fork(f.out, b) && NextPort(f.out, b) !in Step(f, s).rank
      ensures Waiting(f, Step(f, s), b)
    {
      StepForksWait(f, s, b);
    }
  }

  lemma StepTimeoutFirsts(f: Flow, s: Sweep)
    requires Sound(f, s) && s.pending != [] && ForksWait(f, s) && TimeoutFirst(f, s)
    requires AcyclicFrom(f.out, f.start) && Ordered(f, s.rank)
    ensures TimeoutFirst(f, Step(f, s))
  {
    if Top(s) !in s.rank {
      StepPending(f, s);
      var rank := s.rank[Top(s) := |s.rank|];
      forall b, n |
        b in rank && Fork(f.out, b) && NextPort(f.out, b) in rank &&
        !Reaches(f.out, TimeoutPort(f.out, b), NextPort(f.out, b)) && Reaches(f.out, TimeoutPort(f.out, b), n)
        ensures n in rank && rank[n] < rank[NextPort(f.out, b)]
      {
        StepTimeoutFirst(f, s, b, n);
      }
    }
  }

  // ----- forks that rejoin at their next port give a topological order -----

  /** No unpopped entry of the stack, other than the top itself, leads to an unpopped top. */
  lemma {:induction false} NothingBelowLeads(f: Flow, s: Sweep, i: nat)
    requires Sound(f, s) && s.pending != [] && StackGuarded(f, s)
    requires AcyclicFrom(f.out, f.start) && ForksRejoinAtNext(f.out, f.start)
    requires i < |s.pending| && s.pending[i] !in s.rank && Reaches(f.out, s.pending[i], Top(s))
    ensures s.pending[i] == Top(s)
    decreases |s.pending| - i
  {
    var c, key := s.pending[i], Top(s);
    if c != key {
      assert Guarded(f, s, i);
      var b :| Guard(f, s, b, i);
      var t := TimeoutPort(f.out, b);
      RejoinsHere(f, s, b, key);
      var x := FrontierBetween(f, s.rank, t, c);
      assert x in s.pending[i + 1..];
      var j :| i < j < |s.pending| && s.pending[j] == x;
      ReachesTrans(f.out, x, c, key);
      NothingBelowLeads(f, s, j);
      NoWayBack(f, s, key, c);
    }
  }

  lemma RejoinsHere(f: Flow, s: Sweep, b: Key, n: Key)
    requires Sound(f, s) && ForksRejoinAtNext(f.out, f.start) && b in s.rank && Fork(f.out, b)
    requires Reaches(f.out, NextPort(f.out, b), n) && Reaches(f.out, TimeoutPort(f.out, b), n)
    ensures Reaches(f.out, TimeoutPort(f.out, b), NextPort(f.out, b))
  {
    EnteredReaches(f, s, b);
  }

  lemma NoWayBack(f: Flow, s: Sweep, a: Key, b: Key)
    requires Sound(f, s) && AcyclicFrom(f.out, f.start) && a in s.at
    requires Reaches(f.out, a, b) && Reaches(f.out, b, a)
    ensures a == b
  {
    AtReaches(f, s, a);
    if a != b {
      var w :| IsWalk(f.out, a, w, b);
      assert w != [];
      ReachesTrans(f.out, a, b, a);
    }
  }

  lemma PredecessorPopped(f: Flow, s: Sweep, p: Key)
    requires Sound(f, s) && s.pending != [] && StackGuarded(f, s)
    requires AcyclicFrom(f.out, f.start) && ForksRejoinAtNext(f.out, f.start)
    requires Reaches(f.out, f.start, p) && Leads(f.out, p, Top(s))
    ensures p in s.rank
  {
    if p !in s.rank {
      var x := FrontierBetween(f, s.rank, f.start, p);
      FrontierPending(f, s, x);
      var i: nat :| i < |s.pending| && s.pending[i] == x;
      LeadsReaches(f.out, p, Top(s));
      ReachesTrans(f.out, x, p, Top(s));
      NothingBelowLeads(f, s, i);
      AtReaches(f, s, Top(s));
    }
  }

  lemma FrontierPending(f: Flow, s: Sweep, x: Key)
    requires Sound(f, s) && Frontier(f, s.rank, f.start, x)
    ensures x in s.pending
  {
    if x != f.start {
      var h: Hop :| HasHop(f.out, h) && h.target == x && h.source in s.rank && Reaches(f.out, f.start, h.source);
      assert h.target in s.at;
    }
  }

  lemma StepOrdered(f: Flow, s: Sweep)
    requires Sound(f, s) && s.pending != [] && StackGuarded(f, s) && Ordered(f, s.rank)
    requires AcyclicFrom(f.out, f.start) && ForksRejoinAtNext(f.out, f.start)
    ensures Ordered(f, Step(f, s).rank)
  {
    if Top(s) !in s.rank {
      StepPending(f, s);
      forall h: Hop | HasHop(f.out, h) && Reaches(f.out, f.start, h.source) && h.target in Step(f, s).rank
        ensures h.source in s.rank && s.rank[h.source] < Step(f, s).rank[h.target]
      {
        if h.target == Top(s) {
          HopLeads(f.out, h);
          PredecessorPopped(f, s, h.source);
        }
      }
    }
  }

  lemma {:induction false} ExploreOrdered(f: Flow, universe: set<Key>, s: Sweep)
    requires Ready(f, universe, s) && Sound(f, s) && Guards(f, s) && Ordered(f, s.rank) && TwoPorted(f.out)
    requires AcyclicFrom(f.out, f.start) && ForksRejoinAtNext(f.out, f.start)
    ensures Ordered(f, Explore(f, universe, s).rank)
    decreases |universe - s.checked.Keys|, |s.pending|
  {
    if s.pending != [] {
      StepReady(f, universe, s);
      StepSound(f, s);
      StepGuards(f, s);
      StepOrdered(f, s);
      if Top(s) !in s.checked {
        StepShrinks(f, universe, s);
      }
      ExploreOrdered(f, universe, Step(f, s));
    }
  }

  lemma InitialGuards(f: Flow)
    ensures Guards(f, Initial(f)) && TimeoutFirst(f, Initial(f)) && Ordered(f, Initial(f).rank)
  {
  }

  // ----- and only those -----

  lemma StepExtends(f: Flow, s: Sweep, k: Key)
    requires Sound(f, s) && s.pending != []
    ensures k in s.rank ==> k in Step(f, s).rank && Step(f, s).rank[k] == s.rank[k]
    ensures k !in s.rank && k in Step(f, s).rank ==> Step(f, s).rank[k] >= |s.rank|
    ensures |s.rank| <= |Step(f, s).rank|
  {
    if Top(s) !in s.rank {
      StepPending(f, s);
      assert Step(f, s).rank.Keys == s.rank.Keys + {Top(s)};
    }
  }

  /** Later pops never change the place of earlier ones. */
  lemma {:induction false} ExploreExtends(f: Flow, universe: set<Key>, s: Sweep, k: Key)
    requires Ready(f, universe, s) && Sound(f, s)
    ensures var last := Explore(f, universe, s);
            && (k in s.rank ==> k in last.rank && last.rank[k] == s.rank[k])
            && (k !in s.rank && k in last.rank ==> last.rank[k] >= |s.rank|)
    decreases |universe - s.checked.Keys|, |s.pending|
  {
    if s.pending != [] {
      StepReady(f, universe, s);
      StepSound(f, s);
      StepExtends(f, s, k);
      if Top(s) !in s.checked {
        StepShrinks(f, universe, s);
      }
      ExploreExtends(f, universe, Step(f, s), k);
    }
  }

  lemma OrderedEarlier(f: Flow, universe: set<Key>, s: Sweep)
    requires Ready(f, universe, s) && Sound(f, s) && Ordered(f, Explore(f, universe, s).rank)
    ensures Ordered(f, s.rank)
  {
    forall h: Hop | HasHop(f.out, h) && Reaches(f.out, f.start, h.source) && h.target in s.rank
      ensures h.source in s.rank && s.rank[h.source] < s.rank[h.target]
    {
      ExploreExtends(f, universe, s, h.source);
      ExploreExtends(f, universe, s, h.target);
    }
  }

  lemma {:induction false} ExploreTimeoutFirst(f: Flow, universe: set<Key>, s: Sweep)
    requires Ready(f, universe, s) && Sound(f, s) && Guards(f, s) && TimeoutFirst(f, s) && TwoPorted(f.out)
    requires AcyclicFrom(f.out, f.start) && Ordered(f, Explore(f, universe, s).rank)
    ensures TimeoutFirst(f, Explore(f, universe, s))
    decreases |universe - s.checked.Keys|, |s.pending|
  {
    if s.pending != [] {
      OrderedEarlier(f, universe, s);
      StepReady(f, universe, s);
      StepSound(f, s);
      StepGuards(f, s);
      StepTimeoutFirsts(f, s);
      if Top(s) !in s.checked {
        StepShrinks(f, universe, s);
      }
      ExploreTimeoutFirst(f, universe, Step(f, s));
    }
  }

  lemma OrderedForksRejoin(f: Flow, s: Sweep, b: Key)
    requires Sound(f, s) && s.pending == [] && TimeoutFirst(f, s) && Ordered(f, s.rank)
    requires Reaches(f.out, f.start, b) && Fork(f.out, b)
    requires !Reaches(f.out, TimeoutPort(f.out, b), NextPort(f.out, b))
    ensures Disjoint(f.out, NextPort(f.out, b), TimeoutPort(f.out, b))
  {
    var c, t := NextPort(f.out, b), TimeoutPort(f.out, b);
    ForkHops(f.out, b);
    LeadsReaches(f.out, b, c);
    ReachesTrans(f.out, f.start, b, c);
    FinalReached(f, s, b);
    FinalReached(f, s, c);
    forall n | Reaches(f.out, c, n) && Reaches(f.out, t, n)
      ensures false
    {
      assert n in s.rank && s.rank[n] < s.rank[c];
      OrderedReaches(f, s.rank, c, n);
    }
  }

  lemma OrderedIsTopological(f: Flow, s: Sweep)
    requires Sound(f, s) && s.pending == []
    ensures Ordered(f, s.rank) <==> Topological(f, s)
  {
    forall h: Hop | HasHop(f.out, h)
      ensures h.source in s.rank <==> Reaches(f.out, f.start, h.source)
      ensures h.source in s.rank ==> h.target in s.rank
    {
      FinalReached(f, s, h.source);
      FinalClosed(f, s);
    }
  }

  /**
   * On an acyclic region the worklist pops every node after all its predecessors if and only
   * if at each reachable fork the timeout side leads into the next port or never meets it.
   */
  lemma TopologicalIffForksRejoin(f: Flow, universe: set<Key>)
    requires Closed(f.out, universe) && f.start in universe && TwoPorted(f.out)
    requires AcyclicFrom(f.out, f.start)
    ensures Topological(f, Final(f, universe)) <==> ForksRejoinAtNext(f.out, f.start)
  {
    InitialSound(f);
    InitialGuards(f);
    ExploreSound(f, universe, Initial(f));
    var s := Final(f, universe);
    OrderedIsTopological(f, s);
    if ForksRejoinAtNext(f.out, f.start) {
      ExploreOrdered(f, universe, Initial(f));
    }
    if Topological(f, s) {
      ExploreTimeoutFirst(f, universe, Initial(f));
      forall b | Reaches(f.out, f.start, b) && Fork(f.out, b) && !Reaches(f.out, TimeoutPort(f.out, b), NextPort(f.out, b))
        ensures Disjoint(f.out, NextPort(f.out, b), TimeoutPort(f.out, b))
      {
        OrderedForksRejoin(f, s, b);
      }
    }
  }
}
