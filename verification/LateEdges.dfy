/**
 * Edges that arrive late: `y -> x` where `x` was popped before `y`. Each one goes back to a timed
 * wait whose timeout side holds `x` and whose next side holds `y`. Which of them can cost `x` a
 * reference is read off the edges alone.
 */
module LateEdges {
  import opened Prelude
  import opened Bindings
  import opened Ir
  import opened Graph
  import opened Availability
  import opened Exactness
  import opened PopOrder

  // ----- every late edge crosses from the next side of a fork to its timeout side -----

  ghost predicate Crosses(g: Outgoing, b: Key, h: Hop) {
    && Fork(g, b)
    && Reaches(g, NextPort(g, b), h.source)
    && Reaches(g, TimeoutPort(g, b), h.target)
    && !Reaches(g, TimeoutPort(g, b), h.source)
  }

  ghost predicate CrossesPopped(g: Outgoing, rank: map<Key, nat>, h: Hop) {
    exists b :: b in rank && h.target in rank && rank[b] < rank[h.target] && Crosses(g, b, h)
  }

  ghost predicate Late(f: Flow, rank: map<Key, nat>, h: Hop) {
    && HasHop(f.out, h) && Reaches(f.out, f.start, h.source)
    && h.target in rank && (h.source in rank ==> rank[h.target] <= rank[h.source])
  }

  ghost predicate LateCross(f: Flow, rank: map<Key, nat>) {
    forall h: Hop :: Late(f, rank, h) ==> CrossesPopped(f.out, rank, h)
  }

  /** The highest unpopped stack entry that still leads to `y` is the next port of a fork that separates `y` from the top. */
  lemma {:induction false} SeparatedAt(f: Flow, s: Sweep, y: Key, i: nat) returns (b: Key)
    requires s.pending != [] && StackGuarded(f, s) && y !in s.rank && !Reaches(f.out, Top(s), y)
    requires i < |s.pending| && Reaches(f.out, s.pending[i], y)
    ensures b in s.rank && Fork(f.out, b) && Reaches(f.out, NextPort(f.out, b), y)
    ensures Reaches(f.out, TimeoutPort(f.out, b), Top(s)) && !Reaches(f.out, TimeoutPort(f.out, b), y)
    decreases |s.pending| - i
  {
    assert Guarded(f, s, i);
    b :| Guard(f, s, b, i);
    if Reaches(f.out, TimeoutPort(f.out, b), y) {
      var x := FrontierBetween(f, s.rank, TimeoutPort(f.out, b), y);
      assert x in s.pending[i + 1..];
      var j :| i < j < |s.pending| && s.pending[j] == x;
      b := SeparatedAt(f, s, y, j);
    }
  }

  lemma TopCrosses(f: Flow, s: Sweep, h: Hop)
    requires Sound(f, s) && s.pending != [] && StackGuarded(f, s) && AcyclicFrom(f.out, f.start)
    requires Top(s) !in s.rank && HasHop(f.out, h) && h.target == Top(s)
    requires Reaches(f.out, f.start, h.source) && h.source !in s.rank
    ensures exists b :: b in s.rank && Crosses(f.out, b, h)
  {
    HopLeads(f.out, h);
    AtReaches(f, s, Top(s));
    if Reaches(f.out, Top(s), h.source) {
      ReachesTrans(f.out, Top(s), h.source, Top(s));
      assert false;
    }
    var x := FrontierBetween(f, s.rank, f.start, h.source);
    FrontierPending(f, s, x);
    var i: nat :| i < |s.pending| && s.pending[i] == x;
    var b := SeparatedAt(f, s, h.source, i);
    assert Crosses(f.out, b, h);
  }

  lemma CrossesLater(g: Outgoing, rank: map<Key, nat>, key: Key, b: Key, h: Hop)
    requires b in rank && key !in rank && rank[b] < |rank| && Crosses(g, b, h)
    requires h.target == key || (h.target in rank && rank[b] < rank[h.target])
    ensures CrossesPopped(g, rank[key := |rank|], h)
  {
    var after := rank[key := |rank|];
    assert b in after && h.target in after && after[b] < after[h.target];
  }

  lemma PopLateCross(f: Flow, s: Sweep, h: Hop)
    requires Sound(f, s) && s.pending != [] && StackGuarded(f, s) && AcyclicFrom(f.out, f.start) && LateCross(f, s.rank)
    requires Top(s) !in s.rank && Late(f, s.rank[Top(s) := |s.rank|], h)
    ensures CrossesPopped(f.out, s.rank[Top(s) := |s.rank|], h)
  {
    if h.target == Top(s) {
      TopCrosses(f, s, h);
      var b :| b in s.rank && Crosses(f.out, b, h);
      CrossesLater(f.out, s.rank, Top(s), b, h);
    } else {
      assert Late(f, s.rank, h);
      var b :| b in s.rank && s.rank[b] < s.rank[h.target] && Crosses(f.out, b, h);
      CrossesLater(f.out, s.rank, Top(s), b, h);
    }
  }

  lemma StepLateCross(f: Flow, s: Sweep)
    requires Sound(f, s) && s.pending != [] && StackGuarded(f, s) && AcyclicFrom(f.out, f.start) && LateCross(f, s.rank)
    ensures LateCross(f, Step(f, s).rank)
  {
    if Top(s) !in s.rank {
      StepPending(f, s);
      var rank := s.rank[Top(s) := |s.rank|];
      forall h: Hop | Late(f, rank, h)
        ensures CrossesPopped(f.out, rank, h)
      {
        PopLateCross(f, s, h);
      }
    }
  }

  lemma {:induction false} ExploreLateCross(f: Flow, universe: set<Key>, s: Sweep)
    requires Ready(f, universe, s) && Sound(f, s) && Guards(f, s) && LateCross(f, s.rank)
    requires TwoPorted(f.out) && AcyclicFrom(f.out, f.start)
    ensures LateCross(f, Explore(f, universe, s).rank)
    decreases |universe - s.checked.Keys|, |s.pending|
  {
    if s.pending != [] {
      StepReady(f, universe, s);
      StepSound(f, s);
      StepGuards(f, s);
      StepLateCross(f, s);
      if Top(s) !in s.checked {
        StepShrinks(f, universe, s);
      }
      ExploreLateCross(f, universe, Step(f, s));
    }
  }

  // ----- late edges that take nothing away -----

  /** Every walk from `start` to `k` passes `b`. */
  ghost predicate OnlyThrough(g: Outgoing, start: Key, b: Key, k: Key) {
    forall w :: IsWalk(g, start, w, k) ==> b in OnWalk(start, w)
  }

  /**
   * At every reachable fork, an edge from the next side into the timeout side ends at the timeout
   * port itself and starts at a node that is entered only through the fork.
   */
  ghost predicate CrossingsHarmless(g: Outgoing, start: Key) {
    forall b, h: Hop :: Reaches(g, start, b) && HasHop(g, h) && Crosses(g, b, h) ==>
      h.target == TimeoutPort(g, b) && OnlyThrough(g, start, b, h.source)
  }

  /** The second port of a fork is its timeout edge. */
  ghost predicate TimeoutSecond(g: Outgoing) {
    forall b :: Fork(g, b) ==> Edges(g, b)[1].0 == Timeout
  }

  /** A walk that passes `b` starts with a walk to `b` that has gained no more. */
  lemma {:induction false} WalkTo(f: Flow, rank: map<Key, nat>, w: seq<Hop>, k: Key, b: Key) returns (v: seq<Hop>)
    requires IsWalk(f.out, f.start, w, k) && Increasing(rank, w) && b in OnWalk(f.start, w)
    ensures IsWalk(f.out, f.start, v, b) && Increasing(rank, v) && WalkAvail(f, v) <= WalkAvail(f, w)
    decreases |w|
  {
    if w == [] || w[|w| - 1].target == b {
      v := w;
    } else {
      v := WalkTo(f, rank, w[..|w| - 1], w[|w| - 1].source, b);
    }
  }

  lemma CheckedThrough(f: Flow, s: Sweep, b: Key, k: Key, r: Reference)
    requires Sound(f, s) && b in s.checked && k in s.checked
    requires OnlyThrough(f.out, f.start, b, k) && r in s.checked[b]
    ensures r in s.checked[k]
  {
    if r !in s.checked[k] {
      var w := MissingWalk(f, s, k, r);
      var v := WalkTo(f, s.rank, w, k, b);
      KeptOnIncreasing(f, s, v, b, r);
    }
  }

  /** What the timeout port of a fork was checked with, the fork was checked with. */
  lemma CheckedAtFork(f: Flow, s: Sweep, b: Key, r: Reference)
    requires Sound(f, s) && b in s.checked && Fork(f.out, b) && TimeoutSecond(f.out)
    requires TimeoutPort(f.out, b) in s.checked && s.rank[b] < s.rank[TimeoutPort(f.out, b)]
    requires r in s.checked[TimeoutPort(f.out, b)]
    ensures r in s.checked[b]
  {
    ForkHops(f.out, b);
    CheckedMeetsAt(f, s, TimeoutPort(f.out, b), r);
    var h := Hop(b, Edges(f.out, b)[1].0, TimeoutPort(f.out, b));
    assert HasHop(f.out, h) && Gain(f, b, h.edge) == {};
  }

  lemma LostAfter(f: Flow, s: Sweep, k: Key, h: Hop, n: nat, r: Reference)
    requires Sound(f, s) && k in s.checked && r in s.checked[k] && Loses(f, s, h, k, n, r)
    ensures s.rank[h.source] >= s.rank[k]
  {
    CheckedMeetsAt(f, s, k, r);
  }

  lemma LostFinally(f: Flow, s: Sweep, k: Key, r: Reference) returns (h: Hop)
    requires Sound(f, s) && k in s.checked && r in s.checked[k] && r !in s.at[k]
    ensures Loses(f, s, h, k, |s.rank|, r)
  {
    CheckedMeetsAt(f, s, k, r);
    assert !Meet(f, s.rank, s.checked, k, |s.rank|, r);
    h := LostOver(f, s, k, |s.rank|, r);
  }

  /** A hop over which a checked node lost a reference comes late. */
  lemma LostLate(f: Flow, s: Sweep, k: Key, r: Reference) returns (h: Hop)
    requires Sound(f, s) && k in s.checked && r in s.checked[k] && r !in s.at[k]
    ensures Late(f, s.rank, h) && h.target == k && h.source in s.checked && r !in s.checked[h.source]
  {
    h := LostFinally(f, s, k, r);
    LostAfter(f, s, k, h, |s.rank|, r);
    EnteredReaches(f, s, h.source);
  }

  lemma HarmlessKeeps(f: Flow, s: Sweep, k: Key, r: Reference)
    requires Sound(f, s) && TimeoutSecond(f.out)
    requires LateCross(f, s.rank) && CrossingsHarmless(f.out, f.start) && k in s.checked && r in s.checked[k]
    ensures r in s.at[k]
  {
    if r !in s.at[k] {
      var h := LostLate(f, s, k, r);
      var b :| b in s.rank && s.rank[b] < s.rank[k] && Crosses(f.out, b, h);
      EnteredReaches(f, s, b);
      CheckedAtFork(f, s, b, r);
      CheckedThrough(f, s, b, h.source, r);
    }
  }

  /** Where the crossings are harmless, no node loses a reference after it was checked. */
  lemma HarmlessNeverShrinks(f: Flow, universe: set<Key>)
    requires Closed(f.out, universe) && f.start in universe && TwoPorted(f.out) && TimeoutSecond(f.out)
    requires AcyclicFrom(f.out, f.start) && CrossingsHarmless(f.out, f.start)
    ensures NeverShrunk(Final(f, universe))
  {
    InitialSound(f);
    InitialGuards(f);
    ExploreSound(f, universe, Initial(f));
    ExploreLateCross(f, universe, Initial(f));
    var s := Final(f, universe);
    forall k | k in s.checked && k in s.at
      ensures s.at[k] == s.checked[k]
    {
      AtInsideChecked(f, s, k);
      forall r | r in s.checked[k]
        ensures r in s.at[k]
      {
        HarmlessKeeps(f, s, k, r);
      }
    }
  }

  /** Forks whose sides rejoin at the next port, or never, have no crossing at all. */
  lemma RejoiningHarmless(g: Outgoing, start: Key)
    requires ForksRejoinAtNext(g, start)
    ensures CrossingsHarmless(g, start)
  {
    forall b, h: Hop | Reaches(g, start, b) && HasHop(g, h)
      ensures !Crosses(g, b, h)
    {
      if Crosses(g, b, h) {
        HopLeads(g, h);
        ReachesTrans(g, NextPort(g, b), h.source, h.target);
        if Reaches(g, TimeoutPort(g, b), NextPort(g, b)) {
          ReachesTrans(g, TimeoutPort(g, b), NextPort(g, b), h.source);
        }
      }
    }
  }

  // ----- a wait that skips a step when it times out -----

  lemma {:induction false} StartsOnWalk(a: Key, w: seq<Hop>)
    ensures a in OnWalk(a, w)
    decreases |w|
  {
    if w != [] {
      StartsOnWalk(a, w[..|w| - 1]);
    }
  }

  lemma StuckAt(g: Outgoing, j: Key, x: Key)
    requires Edges(g, j) == [] && Reaches(g, j, x)
    ensures x == j
  {
    assert Closed(g, {j});
    ClosedReaches(g, {j}, j, x);
  }

  /** On a signal `w` runs `a` and then `j`, on a timeout `j` at once: a late edge that costs nothing. */
  lemma BypassIsHarmless(w: Key, a: Key, j: Key)
    requires w != a && w != j && a != j
    ensures var g: Outgoing := map[w := [(Next, a), (Timeout, j)], a := [(Next, j)]];
            CrossingsHarmless(g, w) && !ForksRejoinAtNext(g, w)
  {
    var g: Outgoing := map[w := [(Next, a), (Timeout, j)], a := [(Next, j)]];
    forall b, h: Hop | HasHop(g, h) && Crosses(g, b, h)
      ensures h.target == TimeoutPort(g, b) && OnlyThrough(g, w, b, h.source)
    {
      assert b == w;
      StuckAt(g, j, h.target);
      forall v
        ensures w in OnWalk(w, v)
      {
        StartsOnWalk(w, v);
      }
    }
    assert Fork(g, w) && TimeoutPort(g, w) == j && NextPort(g, w) == a;
    ReachesRefl(g, w);
    ReachesRefl(g, j);
    HopLeads(g, Hop(a, Next, j));
    if Reaches(g, j, a) {
      StuckAt(g, j, a);
    }
    assert Reaches(g, a, j) && Reaches(g, j, j);
  }
}
