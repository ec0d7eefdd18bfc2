/**
 * The worklist that computes which references are available at each node of a region,
 * measured against its meaning: availability on every walk from the start node.
 */
module Availability {
  import opened Prelude
  import opened Bindings
  import opened Ir
  import opened Graph

  /** A dataflow problem: `gain[k]` becomes available along the next edge of `k`. */
  datatype Flow = Flow(out: Outgoing, gain: map<Key, set<Reference>>, base: set<Reference>, start: Key)

  function Gain(f: Flow, k: Key, edge: Edge): set<Reference> {
    if edge == Next && k in f.gain then f.gain[k] else {}
  }

  // ----- the meaning -----

  /** What is available after following `w` from the start. */
  ghost function WalkAvail(f: Flow, w: seq<Hop>): set<Reference>
    decreases |w|
  {
    if w == [] then
      f.base
    else
      WalkAvail(f, w[..|w| - 1]) + Gain(f, w[|w| - 1].source, w[|w| - 1].edge)
  }

  ghost predicate OnEveryWalk(f: Flow, k: Key, r: Reference) {
    forall w :: IsWalk(f.out, f.start, w, k) ==> r in WalkAvail(f, w)
  }

  // ----- the worklist -----

  /**
   * `pending` is the stack of keys still to pop and `at` the running meet per node.
   * `checked` holds the set each popped node was checked against, and `rank` its place
   * in the pop order.
   */
  datatype Sweep = Sweep(
    pending: seq<Key>,
    rank: map<Key, nat>,
    checked: map<Key, set<Reference>>,
    at: map<Key, set<Reference>>)

  function Initial(f: Flow): Sweep {
    Sweep([f.start], map[], map[], map[f.start := f.base])
  }

  function PushEdge(f: Flow, key: Key, e: (Edge, Key), s: Sweep): Sweep
    requires key in s.at
  {
    var next := s.at[key] + Gain(f, key, e.0);
    var entry := if e.1 in s.at then s.at[e.1] * next else next;
    s.(pending := s.pending + [e.1], at := s.at[e.1 := entry])
  }

  function PushEdges(f: Flow, key: Key, edges: seq<(Edge, Key)>, s: Sweep): (s': Sweep)
    requires key in s.at
    ensures key in s'.at && s'.at[key] == s.at[key]
    ensures s'.rank == s.rank && s'.checked == s.checked
    decreases |edges|
  {
    if edges == [] then
      s
    else
      PushEdge(f, key, edges[|edges| - 1], PushEdges(f, key, edges[..|edges| - 1], s))
  }

  /** Marks `key` as popped. */
  function Mark(key: Key, s: Sweep): Sweep
    requires key in s.at
  {
    s.(rank := s.rank[key := |s.rank|], checked := s.checked[key := s.at[key]])
  }

  function Step(f: Flow, s: Sweep): Sweep
    requires s.pending != [] && s.pending[|s.pending| - 1] in s.at
  {
    var key := s.pending[|s.pending| - 1];
    var popped := s.(pending := s.pending[..|s.pending| - 1]);
    if key in s.checked then popped else PushEdges(f, key, Edges(f.out, key), Mark(key, popped))
  }

  ghost predicate Ready(f: Flow, universe: set<Key>, s: Sweep) {
    && Closed(f.out, universe)
    && s.checked.Keys <= universe
    && forall k :: k in s.pending ==> k in universe && k in s.at
  }

  ghost function Explore(f: Flow, universe: set<Key>, s: Sweep): Sweep
    requires Ready(f, universe, s)
    decreases |universe - s.checked.Keys|, |s.pending|
  {
    if s.pending == [] then
      s
    else
      StepReady(f, universe, s);
      if s.pending[|s.pending| - 1] in s.checked then
        Explore(f, universe, Step(f, s))
      else
        StepShrinks(f, universe, s);
        Explore(f, universe, Step(f, s))
  }

  /** The state in which the worklist has run dry. */
  ghost function Final(f: Flow, universe: set<Key>): Sweep
    requires Closed(f.out, universe) && f.start in universe
  {
    Explore(f, universe, Initial(f))
  }

  ghost function Targets(edges: seq<(Edge, Key)>): set<Key> {
    set e | e in edges :: e.1
  }

  lemma {:induction false} PushEdgesShape(f: Flow, key: Key, edges: seq<(Edge, Key)>, s: Sweep)
    requires key in s.at
    ensures PushEdges(f, key, edges, s).at.Keys == s.at.Keys + Targets(edges)
    ensures forall k :: k in PushEdges(f, key, edges, s).pending <==> k in s.pending || k in Targets(edges)
    decreases |edges|
  {
    if edges != [] {
      var front, e := edges[..|edges| - 1], edges[|edges| - 1];
      PushEdgesShape(f, key, front, s);
      assert edges == front + [e];
      assert Targets(edges) == Targets(front) + {e.1};
    }
  }

  lemma TargetsInside(g: Outgoing, universe: set<Key>, key: Key)
    requires Closed(g, universe) && key in universe
    ensures Targets(Edges(g, key)) <= universe
  {
    forall e | e in Edges(g, key)
      ensures e.1 in universe
    {
      assert HasHop(g, Hop(key, e.0, e.1));
    }
  }

  lemma StepReady(f: Flow, universe: set<Key>, s: Sweep)
    requires Ready(f, universe, s) && s.pending != []
    ensures Ready(f, universe, Step(f, s))
  {
    var key := s.pending[|s.pending| - 1];
    if key !in s.checked {
      PushEdgesShape(f, key, Edges(f.out, key), Mark(key, s.(pending := s.pending[..|s.pending| - 1])));
      TargetsInside(f.out, universe, key);
    }
  }

  lemma StepShrinks(f: Flow, universe: set<Key>, s: Sweep)
    requires Ready(f, universe, s) && s.pending != [] && s.pending[|s.pending| - 1] !in s.checked
    ensures |universe - Step(f, s).checked.Keys| < |universe - s.checked.Keys|
  {
    var key := s.pending[|s.pending| - 1];
    assert Step(f, s).checked.Keys == s.checked.Keys + {key};
    Shrinks(universe, s.checked.Keys, Step(f, s).checked.Keys, key);
  }

  // ----- the invariant of the worklist -----

  /** `r` survives the meet at `k` over the edges of the nodes popped before place `n`. */
  ghost predicate Meet(f: Flow, rank: map<Key, nat>, checked: map<Key, set<Reference>>, k: Key, n: nat, r: Reference)
    requires rank.Keys == checked.Keys
  {
    && (k == f.start ==> r in f.base)
    && forall h: Hop :: HasHop(f.out, h) && h.target == k && h.source in rank && rank[h.source] < n ==>
         r in checked[h.source] + Gain(f, h.source, h.edge)
  }

  /** Some edge from a node popped before place `n` enters `k`, or `k` is the start. */
  ghost predicate Entered(f: Flow, rank: map<Key, nat>, k: Key, n: nat) {
    k == f.start || exists h: Hop :: HasHop(f.out, h) && h.target == k && h.source in rank && rank[h.source] < n
  }

  ghost predicate Shape(f: Flow, s: Sweep) {
    && s.rank.Keys == s.checked.Keys <= s.at.Keys
    && f.start in s.at
    && (forall k :: k in s.pending ==> k in s.at)
    && (forall k :: k in s.at ==> k in s.checked || k in s.pending)
    && (forall k :: k in s.rank ==> s.rank[k] < |s.rank|)
    && (forall h: Hop :: HasHop(f.out, h) && h.source in s.checked ==> h.target in s.at)
  }

  ghost predicate CheckedMeets(f: Flow, rank: map<Key, nat>, checked: map<Key, set<Reference>>)
    requires rank.Keys == checked.Keys
  {
    forall k :: k in checked ==>
      && Entered(f, rank, k, rank[k])
      && forall r :: r in checked[k] <==> Meet(f, rank, checked, k, rank[k], r)
  }

  ghost predicate AtMeets(f: Flow, s: Sweep)
    requires s.rank.Keys == s.checked.Keys
  {
    forall k :: k in s.at ==>
      && Entered(f, s.rank, k, |s.rank|)
      && forall r :: r in s.at[k] <==> Meet(f, s.rank, s.checked, k, |s.rank|, r)
  }

  /** Holds of every state of the worklist. */
  ghost predicate Sound(f: Flow, s: Sweep) {
    Shape(f, s) && CheckedMeets(f, s.rank, s.checked) && AtMeets(f, s)
  }

  lemma InitialSound(f: Flow)
    ensures Sound(f, Initial(f))
  {
  }

  lemma {:induction false} PushEdgesMeet(f: Flow, key: Key, edges: seq<(Edge, Key)>, s: Sweep, k: Key, r: Reference)
    requires key in s.at && k in PushEdges(f, key, edges, s).at
    ensures r in PushEdges(f, key, edges, s).at[k] <==>
            && (k in s.at ==> r in s.at[k])
            && forall e :: e in edges && e.1 == k ==> r in s.at[key] + Gain(f, key, e.0)
    decreases |edges|
  {
    if edges != [] {
      var front, e := edges[..|edges| - 1], edges[|edges| - 1];
      assert edges == front + [e];
      var before := PushEdges(f, key, front, s);
      PushEdgesShape(f, key, front, s);
      if k in before.at {
        PushEdgesMeet(f, key, front, s, k, r);
      } else {
        assert k !in s.at && forall e' :: e' in front ==> e'.1 != k;
      }
    }
  }

  lemma MeetFrame(f: Flow, s: Sweep, key: Key, k: Key, n: nat, r: Reference)
    requires s.rank.Keys == s.checked.Keys && key in s.at && key !in s.checked && n <= |s.rank|
    ensures Meet(f, Mark(key, s).rank, Mark(key, s).checked, k, n, r) <==> Meet(f, s.rank, s.checked, k, n, r)
  {
  }

  lemma EnteredFrame(f: Flow, s: Sweep, key: Key, k: Key, n: nat, n': nat)
    requires s.rank.Keys == s.checked.Keys && key in s.at && key !in s.checked && n <= n'
    requires Entered(f, s.rank, k, n)
    ensures Entered(f, Mark(key, s).rank, k, n')
  {
    if k != f.start {
      var h: Hop :| HasHop(f.out, h) && h.target == k && h.source in s.rank && s.rank[h.source] < n;
      assert Mark(key, s).rank[h.source] < n';
    }
  }

  lemma MarkSize(s: Sweep, key: Key)
    requires s.rank.Keys == s.checked.Keys && key in s.at && key !in s.checked
    ensures |Mark(key, s).rank| == |s.rank| + 1
  {
    assert Mark(key, s).rank.Keys == s.rank.Keys + {key};
  }

  lemma MarkCheckedMeets(f: Flow, s: Sweep, key: Key)
    requires s.rank.Keys == s.checked.Keys && CheckedMeets(f, s.rank, s.checked) && AtMeets(f, s)
    requires forall k :: k in s.rank ==> s.rank[k] < |s.rank|
    requires key in s.at && key !in s.checked
    ensures CheckedMeets(f, Mark(key, s).rank, Mark(key, s).checked)
  {
    var m := Mark(key, s);
    forall k | k in m.checked
      ensures Entered(f, m.rank, k, m.rank[k])
    {
      EnteredFrame(f, s, key, k, m.rank[k], m.rank[k]);
    }
    forall k, r | k in m.checked
      ensures r in m.checked[k] <==> Meet(f, m.rank, m.checked, k, m.rank[k], r)
    {
      MeetFrame(f, s, key, k, m.rank[k], r);
    }
  }

  lemma MarkedMeetBack(f: Flow, s: Sweep, key: Key, k: Key, r: Reference)
    requires s.rank.Keys == s.checked.Keys && key in s.at && key !in s.checked
    requires forall k :: k in s.rank ==> s.rank[k] < |s.rank|
    requires Meet(f, Mark(key, s).rank, Mark(key, s).checked, k, |s.rank| + 1, r)
    ensures Meet(f, s.rank, s.checked, k, |s.rank|, r)
    ensures forall e :: e in Edges(f.out, key) && e.1 == k ==> r in s.at[key] + Gain(f, key, e.0)
  {
    forall e | e in Edges(f.out, key) && e.1 == k
      ensures r in s.at[key] + Gain(f, key, e.0)
    {
      assert HasHop(f.out, Hop(key, e.0, e.1));
    }
  }

  lemma MarkedMeet(f: Flow, s: Sweep, key: Key, k: Key, r: Reference)
    requires s.rank.Keys == s.checked.Keys && key in s.at && key !in s.checked
    requires forall k :: k in s.rank ==> s.rank[k] < |s.rank|
    ensures Meet(f, Mark(key, s).rank, Mark(key, s).checked, k, |s.rank| + 1, r) <==>
            && Meet(f, s.rank, s.checked, k, |s.rank|, r)
            && forall e :: e in Edges(f.out, key) && e.1 == k ==> r in s.at[key] + Gain(f, key, e.0)
  {
    if Meet(f, Mark(key, s).rank, Mark(key, s).checked, k, |s.rank| + 1, r) {
      MarkedMeetBack(f, s, key, k, r);
    }
  }

  lemma MeetUnentered(f: Flow, s: Sweep, k: Key, r: Reference)
    requires Shape(f, s) && k !in s.at
    ensures Meet(f, s.rank, s.checked, k, |s.rank|, r)
  {
  }

  lemma StepAtMeet(f: Flow, s: Sweep, key: Key, k: Key, r: Reference)
    requires Sound(f, s) && key in s.at && key !in s.checked
    requires k in PushEdges(f, key, Edges(f.out, key), Mark(key, s)).at
    ensures var m := Mark(key, s);
            r in PushEdges(f, key, Edges(f.out, key), m).at[k] <==> Meet(f, m.rank, m.checked, k, |s.rank| + 1, r)
  {
    PushEdgesMeet(f, key, Edges(f.out, key), Mark(key, s), k, r);
    MarkedMeet(f, s, key, k, r);
    if k !in s.at {
      MeetUnentered(f, s, k, r);
    }
  }

  lemma EdgeEntered(f: Flow, s: Sweep, key: Key, k: Key)
    requires key in s.at && key !in s.rank && k in Targets(Edges(f.out, key))
    ensures Entered(f, Mark(key, s).rank, k, |s.rank| + 1)
  {
    var e :| e in Edges(f.out, key) && e.1 == k;
    assert HasHop(f.out, Hop(key, e.0, k));
  }

  lemma StepEntered(f: Flow, s: Sweep, key: Key, k: Key)
    requires s.rank.Keys == s.checked.Keys && AtMeets(f, s) && key in s.at && key !in s.checked
    requires k in PushEdges(f, key, Edges(f.out, key), Mark(key, s)).at
    ensures Entered(f, Mark(key, s).rank, k, |s.rank| + 1)
  {
    if k in s.at {
      EnteredFrame(f, s, key, k, |s.rank|, |s.rank| + 1);
    } else {
      PushEdgesShape(f, key, Edges(f.out, key), Mark(key, s));
      EdgeEntered(f, s, key, k);
    }
  }

  /** Pops of a node that was not popped before; `s` is the state before the pop. */
  lemma VisitAtMeets(f: Flow, s: Sweep, key: Key)
    requires Sound(f, s) && key in s.at && key !in s.checked
    ensures AtMeets(f, PushEdges(f, key, Edges(f.out, key), Mark(key, s)))
  {
    MarkSize(s, key);
    var s' := PushEdges(f, key, Edges(f.out, key), Mark(key, s));
    forall k | k in s'.at
      ensures Entered(f, s'.rank, k, |s'.rank|)
    {
      StepEntered(f, s, key, k);
    }
    forall k, r | k in s'.at
      ensures r in s'.at[k] <==> Meet(f, s'.rank, s'.checked, k, |s'.rank|, r)
    {
      StepAtMeet(f, s, key, k, r);
    }
  }

  lemma HopsStayIn(f: Flow, key: Key, checked: set<Key>, at: set<Key>)
    requires forall h: Hop :: HasHop(f.out, h) && h.source in checked ==> h.target in at
    ensures forall h: Hop :: HasHop(f.out, h) && h.source in checked + {key} ==> h.target in at + Targets(Edges(f.out, key))
  {
    forall h: Hop | HasHop(f.out, h) && h.source in checked + {key}
      ensures h.target in at + Targets(Edges(f.out, key))
    {
      if h.source == key {
        assert (h.edge, h.target) in Edges(f.out, key);
      }
    }
  }

  /** What a pop of a new node changes. */
  ghost predicate Pops(f: Flow, s: Sweep, key: Key, s': Sweep) {
    && s'.rank == s.rank[key := |s.rank|] && |s'.rank| == |s.rank| + 1
    && s'.checked.Keys == s.checked.Keys + {key} && s'.at.Keys == s.at.Keys + Targets(Edges(f.out, key))
    && (forall k :: k in s'.pending ==> k in s.pending || k in Targets(Edges(f.out, key)))
    && (forall k :: (k in s.pending && k != key) || k in Targets(Edges(f.out, key)) ==> k in s'.pending)
  }

  lemma StepVisits(f: Flow, s: Sweep)
    requires s.rank.Keys == s.checked.Keys && s.pending != []
    requires s.pending[|s.pending| - 1] in s.at && s.pending[|s.pending| - 1] !in s.checked
    ensures Pops(f, s, s.pending[|s.pending| - 1], Step(f, s))
  {
    var key, rest := s.pending[|s.pending| - 1], s.pending[..|s.pending| - 1];
    var popped := s.(pending := rest);
    MarkSize(popped, key);
    PushEdgesShape(f, key, Edges(f.out, key), Mark(key, popped));
    assert s.pending == rest + [key];
  }

  lemma PopsShape(f: Flow, s: Sweep, key: Key, s': Sweep)
    requires Shape(f, s) && key in s.at && Pops(f, s, key, s')
    ensures Shape(f, s')
  {
    HopsStayIn(f, key, s.checked.Keys, s.at.Keys);
  }

  lemma StepShape(f: Flow, s: Sweep)
    requires Shape(f, s) && s.pending != [] && s.pending[|s.pending| - 1] !in s.checked
    ensures Shape(f, Step(f, s))
  {
    StepVisits(f, s);
    PopsShape(f, s, s.pending[|s.pending| - 1], Step(f, s));
  }

  lemma {:induction false} PushEdgesSameAt(f: Flow, key: Key, edges: seq<(Edge, Key)>, s: Sweep, pending: seq<Key>)
    requires key in s.at
    ensures var a, b := PushEdges(f, key, edges, s), PushEdges(f, key, edges, s.(pending := pending));
            a.at == b.at && a.rank == b.rank && a.checked == b.checked
    decreases |edges|
  {
    if edges != [] {
      PushEdgesSameAt(f, key, edges[..|edges| - 1], s, pending);
    }
  }

  lemma StepSound(f: Flow, s: Sweep)
    requires Sound(f, s) && s.pending != []
    ensures Sound(f, Step(f, s))
  {
    var key, rest := s.pending[|s.pending| - 1], s.pending[..|s.pending| - 1];
    assert s.pending == rest + [key];
    if key !in s.checked {
      StepShape(f, s);
      MarkCheckedMeets(f, s, key);
      VisitAtMeets(f, s, key);
      PushEdgesSameAt(f, key, Edges(f.out, key), Mark(key, s), rest);
      assert Mark(key, s).(pending := rest) == Mark(key, s.(pending := rest));
    }
  }

  lemma {:induction false} ExploreSound(f: Flow, universe: set<Key>, s: Sweep)
    requires Ready(f, universe, s) && Sound(f, s)
    ensures Sound(f, Explore(f, universe, s)) && Explore(f, universe, s).pending == []
    ensures Explore(f, universe, s).checked.Keys <= universe
    decreases |universe - s.checked.Keys|, |s.pending|
  {
    if s.pending != [] {
      StepReady(f, universe, s);
      StepSound(f, s);
      if s.pending[|s.pending| - 1] !in s.checked {
        StepShrinks(f, universe, s);
      }
      ExploreSound(f, universe, Step(f, s));
    }
  }
}
