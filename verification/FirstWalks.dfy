/**
 * The pop order, read off the edges. The first walk to a node takes the timeout port of every timed
 * wait whose timeout side still leads to that node. A node is popped after every node on its first
 * walk, and after the whole timeout side of every wait whose next port that walk takes; nothing
 * else comes before it.
 */
module FirstWalks {
  import opened Prelude
  import opened Ir
  import opened Graph
  import opened Availability
  import opened Exactness
  import opened PopOrder
  import opened LateEdges

  // ----- first walks -----

  /** The hop is not the next port of a fork whose timeout side leads to `y` as well. */
  ghost predicate HopFirst(g: Outgoing, h: Hop, y: Key) {
    Fork(g, h.source) && h.edge == Next ==> !Reaches(g, TimeoutPort(g, h.source), y)
  }

  ghost predicate First(g: Outgoing, w: seq<Hop>, y: Key) {
    forall i :: 0 <= i < |w| ==> HopFirst(g, w[i], y)
  }

  /** `c` lies on the first walk from `start` to `y`. */
  ghost predicate OnFirst(g: Outgoing, start: Key, c: Key, y: Key) {
    Reaches(g, c, y) && exists w :: IsWalk(g, start, w, c) && First(g, w, y)
  }

  /** The way from the fork `c` to `y` leaves the timeout side, with `x` on it, behind. */
  ghost predicate Passes(g: Outgoing, c: Key, x: Key, y: Key) {
    c != y && Fork(g, c) && Reaches(g, TimeoutPort(g, c), x) && !Reaches(g, TimeoutPort(g, c), y)
  }

  /** `x` comes before `y`: on its first walk, or on a timeout side that this walk passes. */
  ghost predicate Earlier(g: Outgoing, start: Key, x: Key, y: Key) {
    x != y && (OnFirst(g, start, x, y) || exists c :: OnFirst(g, start, c, y) && Passes(g, c, x, y))
  }

  /** The ports of a fork are its next edge and its timeout edge, in this order. */
  ghost predicate Ported(g: Outgoing) {
    TwoPorted(g) && TimeoutSecond(g) && forall b :: Fork(g, b) ==> Edges(g, b)[0].0 == Next
  }

  /** What is first on the way to `y` is first on the way to any node that leads to `y`. */
  lemma FirstToward(g: Outgoing, w: seq<Hop>, n: Key, y: Key)
    requires First(g, w, y) && Reaches(g, n, y)
    ensures First(g, w, n)
  {
    forall i | 0 <= i < |w|
      ensures HopFirst(g, w[i], n)
    {
      if Fork(g, w[i].source) && Reaches(g, TimeoutPort(g, w[i].source), n) {
        ReachesTrans(g, TimeoutPort(g, w[i].source), n, y);
        assert HopFirst(g, w[i], y);
      }
    }
  }

  lemma ThroughHop(g: Outgoing, c: Key, y: Key) returns (h: Hop)
    requires Reaches(g, c, y) && c != y
    ensures HasHop(g, h) && h.source == c && Reaches(g, h.target, y)
  {
    var w :| IsWalk(g, c, w, y);
    WalkFirst(g, c, w, y);
    h := w[0];
  }

  /** A hop of a fork is one of its two ports. */
  lemma PortOf(g: Outgoing, h: Hop)
    requires Ported(g) && HasHop(g, h) && Fork(g, h.source)
    ensures h == Hop(h.source, Next, NextPort(g, h.source)) || h == Hop(h.source, Timeout, TimeoutPort(g, h.source))
  {
  }

  lemma ForkLeads(g: Outgoing, c: Key, y: Key)
    requires Ported(g) && Fork(g, c) && Reaches(g, c, y) && c != y && !Reaches(g, TimeoutPort(g, c), y)
    ensures Reaches(g, NextPort(g, c), y)
  {
    var h := ThroughHop(g, c, y);
    PortOf(g, h);
  }

  // ----- the stack again -----

  ghost function LastTarget(g: Outgoing, z: Key): Key
    requires Edges(g, z) != []
  {
    Edges(g, z)[|Edges(g, z)| - 1].1
  }

  /** The last edge of a popped node is followed at once. */
  ghost predicate LastOnTop(f: Flow, s: Sweep) {
    forall z :: z in s.rank && Edges(f.out, z) != [] && LastTarget(f.out, z) !in s.rank ==>
      s.pending != [] && Top(s) == LastTarget(f.out, z)
  }

  ghost predicate StartFirst(f: Flow, s: Sweep) {
    f.start in s.rank || s.pending == [f.start]
  }

  lemma StepLastOnTop(f: Flow, s: Sweep)
    requires Sound(f, s) && s.pending != [] && LastOnTop(f, s)
    ensures LastOnTop(f, Step(f, s))
  {
    if Top(s) !in s.rank {
      StepPending(f, s);
      var edges := Edges(f.out, Top(s));
      TargetSeqHas(edges, Top(s));
    }
  }

  lemma StepStartFirst(f: Flow, s: Sweep)
    requires Sound(f, s) && s.pending != [] && StartFirst(f, s)
    ensures StartFirst(f, Step(f, s))
  {
    StepExtends(f, s, f.start);
    if f.start !in s.rank {
      assert Top(s) == f.start;
      StepPending(f, s);
    }
  }

  // ----- everything earlier is popped -----

  /** An unpopped target of a popped node, other than the top, waits at a fork whose timeout side holds the top. */
  lemma WaitsForTimeout(f: Flow, s: Sweep, h: Hop)
    requires s.pending != [] && ForksWait(f, s) && LastOnTop(f, s) && Ported(f.out)
    requires HasHop(f.out, h) && h.source in s.rank && h.target !in s.rank && h.target != Top(s)
    ensures Fork(f.out, h.source) && h.edge == Next && h.target == NextPort(f.out, h.source)
    ensures Reaches(f.out, TimeoutPort(f.out, h.source), Top(s))
  {
    var z := h.source;
    assert |Edges(f.out, z)| <= 2;
    assert Fork(f.out, z);
    PortOf(f.out, h);
    assert Waiting(f, s, z);
    var i: nat :| Guard(f, s, z, i);
    assert i < |s.pending| - 1;
  }

  lemma AheadOfTop(f: Flow, s: Sweep, h: Hop)
    requires Sound(f, s) && s.pending != [] && AcyclicFrom(f.out, f.start)
    requires HasHop(f.out, h) && Reaches(f.out, h.target, Top(s))
    ensures Reaches(f.out, h.source, Top(s)) && h.source != Top(s)
  {
    HopLeads(f.out, h);
    ReachesTrans(f.out, h.source, h.target, Top(s));
    AtReaches(f, s, Top(s));
  }

  /** Every node on the first walk to the top is popped. */
  lemma {:induction false} FirstPopped(f: Flow, s: Sweep, w: seq<Hop>, c: Key)
    requires Sound(f, s) && s.pending != [] && Top(s) !in s.rank && AcyclicFrom(f.out, f.start) && Ported(f.out)
    requires ForksWait(f, s) && LastOnTop(f, s) && StartFirst(f, s)
    requires IsWalk(f.out, f.start, w, c) && First(f.out, w, Top(s)) && Reaches(f.out, c, Top(s)) && c != Top(s)
    ensures c in s.rank
    decreases |w|
  {
    if w != [] {
      var h := w[|w| - 1];
      AheadOfTop(f, s, h);
      FirstPopped(f, s, w[..|w| - 1], h.source);
      assert HopFirst(f.out, h, Top(s));
      if c !in s.rank {
        WaitsForTimeout(f, s, h);
      }
    }
  }

  /** Popped nodes come after everything that is earlier. */
  ghost predicate Respects(f: Flow, rank: map<Key, nat>) {
    forall x, y :: y in rank && Earlier(f.out, f.start, x, y) ==> x in rank && rank[x] < rank[y]
  }

  /** If a fork's next port is unpopped, its timeout side is done or holds the top. */
  lemma TimeoutSideLeft(f: Flow, s: Sweep, c: Key, x: Key)
    requires s.pending != [] && ForksWait(f, s) && c in s.rank && Fork(f.out, c) && NextPort(f.out, c) !in s.rank
    requires Reaches(f.out, TimeoutPort(f.out, c), x) && x !in s.rank
    ensures Reaches(f.out, TimeoutPort(f.out, c), Top(s))
  {
    assert Waiting(f, s, c);
    var i: nat :| Guard(f, s, c, i);
    var e := FrontierBetween(f, s.rank, TimeoutPort(f.out, c), x);
    assert e in s.pending[i + 1..];
  }

  /** What a passed fork leaves behind, it leaves behind on the way to its next port. */
  lemma PassedAtPort(g: Outgoing, start: Key, c: Key, x: Key, y: Key)
    requires Ported(g) && AcyclicFrom(g, start) && OnFirst(g, start, c, y) && Passes(g, c, x, y) && x != NextPort(g, c)
    ensures Earlier(g, start, x, NextPort(g, c))
  {
    var n := NextPort(g, c);
    ForkLeads(g, c, y);
    ForkHops(g, c);
    var w :| IsWalk(g, start, w, c) && First(g, w, y);
    FirstToward(g, w, n, y);
    assert OnFirst(g, start, c, n);
    assert Reaches(g, start, c);
    if Reaches(g, TimeoutPort(g, c), n) {
      ReachesTrans(g, TimeoutPort(g, c), n, y);
    }
    assert Passes(g, c, x, n);
  }

  lemma EarlierPopped(f: Flow, s: Sweep, x: Key)
    requires Sound(f, s) && s.pending != [] && Top(s) !in s.rank && AcyclicFrom(f.out, f.start) && Ported(f.out)
    requires ForksWait(f, s) && LastOnTop(f, s) && StartFirst(f, s) && Respects(f, s.rank)
    requires Earlier(f.out, f.start, x, Top(s))
    ensures x in s.rank
  {
    var y := Top(s);
    if OnFirst(f.out, f.start, x, y) {
      var w :| IsWalk(f.out, f.start, w, x) && First(f.out, w, y);
      FirstPopped(f, s, w, x);
    } else if x !in s.rank {
      var c :| OnFirst(f.out, f.start, c, y) && Passes(f.out, c, x, y);
      var w :| IsWalk(f.out, f.start, w, c) && First(f.out, w, y);
      FirstPopped(f, s, w, c);
      if NextPort(f.out, c) in s.rank {
        PassedAtPort(f.out, f.start, c, x, y);
      } else {
        TimeoutSideLeft(f, s, c, x);
      }
    }
  }

  lemma StepRespects(f: Flow, s: Sweep)
    requires Sound(f, s) && s.pending != [] && AcyclicFrom(f.out, f.start) && Ported(f.out)
    requires ForksWait(f, s) && LastOnTop(f, s) && StartFirst(f, s) && Respects(f, s.rank)
    ensures Respects(f, Step(f, s).rank)
  {
    if Top(s) !in s.rank {
      StepPending(f, s);
      var rank := s.rank[Top(s) := |s.rank|];
      forall x, y | y in rank && Earlier(f.out, f.start, x, y)
        ensures x in rank && rank[x] < rank[y]
      {
        if y == Top(s) {
          EarlierPopped(f, s, x);
        }
      }
    }
  }

  lemma {:induction false} ExploreRespects(f: Flow, universe: set<Key>, s: Sweep)
    requires Ready(f, universe, s) && Sound(f, s) && Guards(f, s) && Ported(f.out) && AcyclicFrom(f.out, f.start)
    requires LastOnTop(f, s) && StartFirst(f, s) && Respects(f, s.rank)
    ensures Respects(f, Explore(f, universe, s).rank)
    decreases |universe - s.checked.Keys|, |s.pending|
  {
    if s.pending != [] {
      StepReady(f, universe, s);
      StepSound(f, s);
      StepGuards(f, s);
      StepLastOnTop(f, s);
      StepStartFirst(f, s);
      StepRespects(f, s);
      if Top(s) !in s.checked {
        StepShrinks(f, universe, s);
      }
      ExploreRespects(f, universe, Step(f, s));
    }
  }

  // ----- of two nodes, one is earlier -----

  lemma ExtendFirst(g: Outgoing, start: Key, w: seq<Hop>, h: Hop, x: Key)
    requires IsWalk(g, start, w, h.source) && HasHop(g, h) && First(g, w, x) && HopFirst(g, h, x)
    ensures IsWalk(g, start, w + [h], h.target) && First(g, w + [h], x)
  {
    WalkSnoc(g, start, w, h);
  }

  /** The hop by which the first walk to `x` leaves `c`. */
  lemma FirstHop(g: Outgoing, c: Key, x: Key) returns (h: Hop)
    requires Ported(g) && Reaches(g, c, x) && c != x
    ensures HasHop(g, h) && h.source == c && Reaches(g, h.target, x) && HopFirst(g, h, x)
    ensures Fork(g, c) ==> h == if Reaches(g, TimeoutPort(g, c), x) then Hop(c, Timeout, TimeoutPort(g, c)) else Hop(c, Next, NextPort(g, c))
    ensures !Fork(g, c) ==> |Edges(g, c)| == 1 && h == Hop(c, Edges(g, c)[0].0, Edges(g, c)[0].1)
  {
    h := ThroughHop(g, c, x);
    if Fork(g, c) {
      ForkHops(g, c);
      if Reaches(g, TimeoutPort(g, c), x) {
        h := Hop(c, Timeout, TimeoutPort(g, c));
      } else {
        ForkLeads(g, c, x);
        h := Hop(c, Next, NextPort(g, c));
      }
    } else {
      assert |Edges(g, c)| <= 2;
    }
  }

  lemma {:induction false} Compared(g: Outgoing, universe: set<Key>, start: Key, w: seq<Hop>, c: Key, x: Key, y: Key)
    requires Ported(g) && Closed(g, universe) && start in universe && AcyclicFrom(g, start) && x != y
    requires IsWalk(g, start, w, c) && First(g, w, x) && First(g, w, y) && Reaches(g, c, x) && Reaches(g, c, y)
    ensures Earlier(g, start, x, y) || Earlier(g, start, y, x)
    decreases |universe| - |w|
  {
    AcyclicWalkBound(g, universe, start, w, c);
    if c == x {
      assert OnFirst(g, start, x, y);
    } else if c == y {
      assert OnFirst(g, start, y, x);
    } else {
      var h := FirstHop(g, c, x);
      var k := FirstHop(g, c, y);
      if h == k {
        ExtendFirst(g, start, w, h, x);
        ExtendFirst(g, start, w, h, y);
        Compared(g, universe, start, w + [h], h.target, x, y);
      } else {
        Parted(g, start, w, c, x, y, h, k);
      }
    }
  }

  lemma Parted(g: Outgoing, start: Key, w: seq<Hop>, c: Key, x: Key, y: Key, h: Hop, k: Hop)
    requires IsWalk(g, start, w, c) && First(g, w, x) && First(g, w, y) && Reaches(g, c, x) && Reaches(g, c, y)
    requires c != x && c != y && x != y && Fork(g, c) && h != k
    requires h == if Reaches(g, TimeoutPort(g, c), x) then Hop(c, Timeout, TimeoutPort(g, c)) else Hop(c, Next, NextPort(g, c))
    requires k == if Reaches(g, TimeoutPort(g, c), y) then Hop(c, Timeout, TimeoutPort(g, c)) else Hop(c, Next, NextPort(g, c))
    ensures Earlier(g, start, x, y) || Earlier(g, start, y, x)
  {
    assert OnFirst(g, start, c, x) && OnFirst(g, start, c, y);
    if Reaches(g, TimeoutPort(g, c), x) {
      assert Passes(g, c, x, y);
    } else {
      assert Passes(g, c, y, x);
    }
  }

  lemma OneIsEarlier(g: Outgoing, universe: set<Key>, start: Key, x: Key, y: Key)
    requires Ported(g) && Closed(g, universe) && start in universe && AcyclicFrom(g, start) && x != y
    requires Reaches(g, start, x) && Reaches(g, start, y)
    ensures Earlier(g, start, x, y) || Earlier(g, start, y, x)
  {
    assert IsWalk(g, start, [], start);
    Compared(g, universe, start, [], start, x, y);
  }

  lemma InitialOrder(f: Flow)
    ensures Guards(f, Initial(f)) && LastOnTop(f, Initial(f)) && StartFirst(f, Initial(f)) && Respects(f, Initial(f).rank)
  {
    InitialGuards(f);
  }

  /** On every acyclic graph the worklist pops `x` before `y` if and only if `x` is earlier by the edges. */
  lemma PopOrderIsEarlier(f: Flow, universe: set<Key>, x: Key, y: Key)
    requires Closed(f.out, universe) && f.start in universe && Ported(f.out) && AcyclicFrom(f.out, f.start)
    requires Reaches(f.out, f.start, x) && Reaches(f.out, f.start, y) && x != y
    ensures x in Final(f, universe).rank && y in Final(f, universe).rank
    ensures Final(f, universe).rank[x] < Final(f, universe).rank[y] <==> Earlier(f.out, f.start, x, y)
  {
    InitialSound(f);
    InitialOrder(f);
    ExploreSound(f, universe, Initial(f));
    ExploreRespects(f, universe, Initial(f));
    FinalReached(f, Final(f, universe), x);
    FinalReached(f, Final(f, universe), y);
    OneIsEarlier(f.out, universe, f.start, x, y);
  }
}
