/** Walks over a region's edges, and what it means to be free of cycles. */
module Graph {
  import opened Prelude
  import opened Ir

  /** Edges leaving each node; a key without an entry has none. */
  type Outgoing = map<Key, seq<(Edge, Key)>>

  datatype Hop = Hop(source: Key, edge: Edge, target: Key)

  function Edges(g: Outgoing, k: Key): seq<(Edge, Key)> {
    if k in g then g[k] else []
  }

  ghost predicate HasHop(g: Outgoing, h: Hop) {
    (h.edge, h.target) in Edges(g, h.source)
  }

  /** `w` is a chain of existing hops that leads from `a` to `b`. */
  ghost predicate IsWalk(g: Outgoing, a: Key, w: seq<Hop>, b: Key)
    decreases |w|
  {
    if w == [] then
      a == b
    else
      var h := w[|w| - 1];
      h.target == b && HasHop(g, h) && IsWalk(g, a, w[..|w| - 1], h.source)
  }

  ghost predicate Reaches(g: Outgoing, a: Key, b: Key) {
    exists w :: IsWalk(g, a, w, b)
  }

  /** As `Reaches`, but over at least one hop. */
  ghost predicate Leads(g: Outgoing, a: Key, b: Key) {
    exists w :: w != [] && IsWalk(g, a, w, b)
  }

  /** No node reachable from `start` lies on a cycle. */
  ghost predicate AcyclicFrom(g: Outgoing, start: Key) {
    forall n :: Reaches(g, start, n) ==> !Leads(g, n, n)
  }

  ghost predicate Closed(g: Outgoing, s: set<Key>) {
    forall h: Hop :: HasHop(g, h) && h.source in s ==> h.target in s
  }

  lemma ReachesRefl(g: Outgoing, a: Key)
    ensures Reaches(g, a, a)
  {
    assert IsWalk(g, a, [], a);
  }

  lemma WalkSnoc(g: Outgoing, a: Key, w: seq<Hop>, h: Hop)
    requires IsWalk(g, a, w, h.source) && HasHop(g, h)
    ensures IsWalk(g, a, w + [h], h.target)
  {
    assert (w + [h])[..|w|] == w;
  }

  lemma {:induction false} WalkConcat(g: Outgoing, a: Key, v: seq<Hop>, b: Key, w: seq<Hop>, c: Key)
    requires IsWalk(g, a, v, b) && IsWalk(g, b, w, c)
    ensures IsWalk(g, a, v + w, c)
    decreases |w|
  {
    if w == [] {
      assert v + w == v;
    } else {
      var h := w[|w| - 1];
      WalkConcat(g, a, v, b, w[..|w| - 1], h.source);
      WalkSnoc(g, a, v + w[..|w| - 1], h);
      assert v + w == v + w[..|w| - 1] + [h];
    }
  }

  lemma HopLeads(g: Outgoing, h: Hop)
    requires HasHop(g, h)
    ensures Leads(g, h.source, h.target)
  {
    assert IsWalk(g, h.source, [], h.source);
    WalkSnoc(g, h.source, [], h);
    assert [] + [h] == [h];
  }

  lemma LeadsReaches(g: Outgoing, a: Key, b: Key)
    requires Leads(g, a, b)
    ensures Reaches(g, a, b)
  {
  }

  lemma LeadsThenReaches(g: Outgoing, a: Key, b: Key, c: Key)
    requires Leads(g, a, b) && Reaches(g, b, c)
    ensures Leads(g, a, c)
  {
    var v :| v != [] && IsWalk(g, a, v, b);
    var w :| IsWalk(g, b, w, c);
    WalkConcat(g, a, v, b, w, c);
    assert v + w != [];
  }

  lemma ReachesThenLeads(g: Outgoing, a: Key, b: Key, c: Key)
    requires Reaches(g, a, b) && Leads(g, b, c)
    ensures Leads(g, a, c)
  {
    var v :| IsWalk(g, a, v, b);
    var w :| w != [] && IsWalk(g, b, w, c);
    WalkConcat(g, a, v, b, w, c);
    assert v + w != [];
  }

  lemma ReachesTrans(g: Outgoing, a: Key, b: Key, c: Key)
    requires Reaches(g, a, b) && Reaches(g, b, c)
    ensures Reaches(g, a, c)
    ensures Leads(g, a, b) || Leads(g, b, c) ==> Leads(g, a, c)
  {
    var v :| IsWalk(g, a, v, b);
    var w :| IsWalk(g, b, w, c);
    WalkConcat(g, a, v, b, w, c);
    if Leads(g, a, b) {
      LeadsThenReaches(g, a, b, c);
    } else if Leads(g, b, c) {
      ReachesThenLeads(g, a, b, c);
    }
  }

  /** A walk that starts inside a closed set never leaves it. */
  lemma {:induction false} ClosedWalk(g: Outgoing, s: set<Key>, a: Key, w: seq<Hop>, b: Key)
    requires Closed(g, s) && a in s && IsWalk(g, a, w, b)
    ensures b in s
    decreases |w|
  {
    if w != [] {
      var h := w[|w| - 1];
      ClosedWalk(g, s, a, w[..|w| - 1], h.source);
    }
  }

  lemma ClosedReaches(g: Outgoing, s: set<Key>, a: Key, b: Key)
    requires Closed(g, s) && a in s && Reaches(g, a, b)
    ensures b in s
  {
    var w :| IsWalk(g, a, w, b);
    ClosedWalk(g, s, a, w, b);
  }

  /** Splits a non-empty walk after its first hop. */
  lemma {:induction false} WalkFirst(g: Outgoing, a: Key, w: seq<Hop>, b: Key)
    requires IsWalk(g, a, w, b) && w != []
    ensures w[0].source == a && HasHop(g, w[0]) && IsWalk(g, w[0].target, w[1..], b)
    decreases |w|
  {
    if |w| == 1 {
      assert w[..0] == [];
    } else {
      var h := w[|w| - 1];
      var v := w[..|w| - 1];
      WalkFirst(g, a, v, h.source);
      WalkSnoc(g, w[0].target, v[1..], h);
      assert v[1..] + [h] == w[1..];
    }
  }

  // ----- the length of walks -----

  /** Every node a walk passes, its first node included. */
  ghost function OnWalk(a: Key, w: seq<Hop>): set<Key>
    decreases |w|
  {
    if w == [] then {a} else OnWalk(a, w[..|w| - 1]) + {w[|w| - 1].target}
  }

  lemma {:induction false} OnWalkReaches(g: Outgoing, a: Key, w: seq<Hop>, b: Key, v: Key)
    requires IsWalk(g, a, w, b) && v in OnWalk(a, w)
    ensures Reaches(g, a, v) && Reaches(g, v, b)
    decreases |w|
  {
    if w == [] {
      ReachesRefl(g, a);
    } else {
      var h := w[|w| - 1];
      var prefix := w[..|w| - 1];
      if v == h.target {
        ReachesRefl(g, b);
      } else {
        OnWalkReaches(g, a, prefix, h.source, v);
        HopLeads(g, h);
        ReachesTrans(g, v, h.source, h.target);
      }
    }
  }

  /** Without cycles a walk never repeats a node, so it passes one more node than it has hops. */
  lemma {:induction false} AcyclicWalkDistinct(g: Outgoing, a: Key, w: seq<Hop>, b: Key)
    requires AcyclicFrom(g, a) && IsWalk(g, a, w, b)
    ensures |OnWalk(a, w)| == |w| + 1
    decreases |w|
  {
    if w != [] {
      var h := w[|w| - 1];
      var prefix := w[..|w| - 1];
      AcyclicWalkDistinct(g, a, prefix, h.source);
      if h.target in OnWalk(a, prefix) {
        OnWalkReaches(g, a, prefix, h.source, h.target);
        HopLeads(g, h);
        ReachesTrans(g, h.target, h.source, h.target);
        assert false;
      }
    }
  }

  lemma {:induction false} OnWalkInside(g: Outgoing, s: set<Key>, a: Key, w: seq<Hop>, b: Key)
    requires Closed(g, s) && a in s && IsWalk(g, a, w, b)
    ensures OnWalk(a, w) <= s
    decreases |w|
  {
    if w != [] {
      var h := w[|w| - 1];
      OnWalkInside(g, s, a, w[..|w| - 1], h.source);
      ClosedWalk(g, s, a, w, b);
    }
  }

  lemma Shrinks(universe: set<Key>, small: set<Key>, large: set<Key>, key: Key)
    requires small + {key} <= large && key in universe && key !in small
    ensures |universe - large| < |universe - small|
  {
    SubsetSize(universe - large, universe - small - {key});
  }

  lemma AcyclicWalkBound(g: Outgoing, s: set<Key>, a: Key, w: seq<Hop>, b: Key)
    requires Closed(g, s) && a in s && AcyclicFrom(g, a) && IsWalk(g, a, w, b)
    ensures |w| <= |s| - 1
  {
    AcyclicWalkDistinct(g, a, w, b);
    OnWalkInside(g, s, a, w, b);
    SubsetSize(OnWalk(a, w), s);
  }

  // ----- a numbering that rises along every hop rules out cycles -----

  ghost predicate Rises(g: Outgoing, height: map<Key, nat>) {
    forall h: Hop :: HasHop(g, h) ==> h.source in height && h.target in height && height[h.source] < height[h.target]
  }

  lemma {:induction false} RisingWalk(g: Outgoing, height: map<Key, nat>, a: Key, w: seq<Hop>, b: Key)
    requires Rises(g, height) && IsWalk(g, a, w, b) && a in height
    ensures b in height && height[a] + |w| <= height[b]
    decreases |w|
  {
    if w != [] {
      var h := w[|w| - 1];
      RisingWalk(g, height, a, w[..|w| - 1], h.source);
    }
  }

  lemma RisingAcyclic(g: Outgoing, height: map<Key, nat>, start: Key)
    requires Rises(g, height) && start in height
    ensures AcyclicFrom(g, start)
  {
    forall n | Reaches(g, start, n)
      ensures !Leads(g, n, n)
    {
      var v :| IsWalk(g, start, v, n);
      RisingWalk(g, height, start, v, n);
      forall w | w != []
        ensures !IsWalk(g, n, w, n)
      {
        if IsWalk(g, n, w, n) {
          RisingWalk(g, height, n, w, n);
        }
      }
    }
  }
}
