/** What the availability worklist computes, and exactly when it is what it should be. */
module Exactness {
  import opened Prelude
  import opened Bindings
  import opened Graph
  import opened Availability

  /** Every hop of `w` goes from an earlier to a later popped node. */
  ghost predicate Increasing(rank: map<Key, nat>, w: seq<Hop>) {
    forall i :: 0 <= i < |w| ==>
      w[i].source in rank && w[i].target in rank && rank[w[i].source] < rank[w[i].target]
  }

  ghost predicate OnEveryIncreasingWalk(f: Flow, s: Sweep, k: Key, r: Reference) {
    forall w :: IsWalk(f.out, f.start, w, k) && Increasing(s.rank, w) ==> r in WalkAvail(f, w)
  }

  lemma WalkAvailSnoc(f: Flow, w: seq<Hop>, h: Hop)
    ensures WalkAvail(f, w + [h]) == WalkAvail(f, w) + Gain(f, h.source, h.edge)
  {
    assert (w + [h])[..|w|] == w;
  }

  /** An edge from a node popped before place `n` over which `k` lost `r`. */
  ghost predicate Loses(f: Flow, s: Sweep, h: Hop, k: Key, n: nat, r: Reference) {
    && HasHop(f.out, h) && h.target == k && h.source in s.rank && h.source in s.checked && s.rank[h.source] < n
    && r !in s.checked[h.source] && r !in Gain(f, h.source, h.edge)
  }

  lemma LostOver(f: Flow, s: Sweep, k: Key, n: nat, r: Reference) returns (h: Hop)
    requires s.rank.Keys == s.checked.Keys && !Meet(f, s.rank, s.checked, k, n, r) && (k == f.start ==> r in f.base)
    ensures Loses(f, s, h, k, n, r)
  {
    h :| HasHop(f.out, h) && h.target == k && h.source in s.rank && s.rank[h.source] < n
         && r !in s.checked[h.source] + Gain(f, h.source, h.edge);
  }

  /** A walk of earlier popped nodes on which `r` is missing. */
  ghost predicate Missing(f: Flow, rank: map<Key, nat>, w: seq<Hop>, k: Key, r: Reference) {
    IsWalk(f.out, f.start, w, k) && Increasing(rank, w) && r !in WalkAvail(f, w)
  }

  lemma MissingSnoc(f: Flow, s: Sweep, v: seq<Hop>, h: Hop, k: Key, n: nat, r: Reference)
    requires Loses(f, s, h, k, n, r) && Missing(f, s.rank, v, h.source, r)
    ensures IsWalk(f.out, f.start, v + [h], k) && r !in WalkAvail(f, v + [h])
    ensures k in s.rank && n == s.rank[k] ==> Increasing(s.rank, v + [h])
  {
    WalkSnoc(f.out, f.start, v, h);
    WalkAvailSnoc(f, v, h);
  }

  lemma CheckedMeetsAt(f: Flow, s: Sweep, k: Key, r: Reference)
    requires Sound(f, s) && k in s.checked
    ensures r in s.checked[k] <==> Meet(f, s.rank, s.checked, k, s.rank[k], r)
  {
  }

  /** A node checked without `r` has a walk of earlier popped nodes on which `r` is missing. */
  lemma {:induction false} MissingWalk(f: Flow, s: Sweep, k: Key, r: Reference) returns (w: seq<Hop>)
    requires Sound(f, s) && k in s.checked && r !in s.checked[k]
    ensures Missing(f, s.rank, w, k, r)
    decreases s.rank[k]
  {
    if k == f.start && r !in f.base {
      w := [];
    } else {
      CheckedMeetsAt(f, s, k, r);
      var h := LostOver(f, s, k, s.rank[k], r);
      var v := MissingWalk(f, s, h.source, r);
      MissingSnoc(f, s, v, h, k, s.rank[k], r);
      w := v + [h];
    }
  }

  lemma {:induction false} KeptOnIncreasing(f: Flow, s: Sweep, w: seq<Hop>, k: Key, r: Reference)
    requires Sound(f, s) && k in s.checked && r in s.checked[k]
    requires IsWalk(f.out, f.start, w, k) && Increasing(s.rank, w)
    ensures r in WalkAvail(f, w)
    decreases |w|
  {
    assert Meet(f, s.rank, s.checked, k, s.rank[k], r);
    if w != [] {
      var h := w[|w| - 1];
      assert h.source in s.rank && s.rank[h.source] < s.rank[h.target];
      if r !in Gain(f, h.source, h.edge) {
        KeptOnIncreasing(f, s, w[..|w| - 1], h.source, r);
      }
    }
  }

  /** In every state, the set a node was checked with is the meet over the increasing walks to it. */
  lemma CheckedIsIncreasingMeet(f: Flow, s: Sweep, k: Key, r: Reference)
    requires Sound(f, s) && k in s.checked
    ensures r in s.checked[k] <==> OnEveryIncreasingWalk(f, s, k, r)
  {
    if r in s.checked[k] {
      forall w | IsWalk(f.out, f.start, w, k) && Increasing(s.rank, w)
        ensures r in WalkAvail(f, w)
      {
        KeptOnIncreasing(f, s, w, k, r);
      }
    } else {
      var w := MissingWalk(f, s, k, r);
    }
  }

  /** A reference that a node is found to lack is really missing on some walk to that node. */
  lemma RejectionHasWalk(f: Flow, s: Sweep, k: Key, r: Reference)
    requires Sound(f, s) && k in s.checked
    ensures OnEveryWalk(f, k, r) ==> r in s.checked[k]
  {
    if r !in s.checked[k] {
      var w := MissingWalk(f, s, k, r);
    }
  }

  // ----- exactness -----

  /** Every node was checked against its true availability. */
  ghost predicate Exact(f: Flow, s: Sweep) {
    forall k, r :: k in s.checked ==> (r in s.checked[k] <==> OnEveryWalk(f, k, r))
  }

  /** No edge took a reference away from a node that had been popped already. */
  ghost predicate NeverShrunk(s: Sweep) {
    forall k :: k in s.checked && k in s.at ==> s.at[k] == s.checked[k]
  }

  lemma FinalClosed(f: Flow, s: Sweep)
    requires Sound(f, s) && s.pending == []
    ensures s.at.Keys == s.checked.Keys && Closed(f.out, s.checked.Keys)
  {
  }

  /** The popped nodes are exactly those reachable from the start. */
  lemma FinalReached(f: Flow, s: Sweep, k: Key)
    requires Sound(f, s) && s.pending == []
    ensures k in s.checked <==> Reaches(f.out, f.start, k)
  {
    FinalClosed(f, s);
    if k in s.checked {
      EnteredReaches(f, s, k);
    }
    if Reaches(f.out, f.start, k) {
      ClosedReaches(f.out, s.checked.Keys, f.start, k);
    }
  }

  lemma {:induction false} EnteredReaches(f: Flow, s: Sweep, k: Key)
    requires Sound(f, s) && k in s.checked
    ensures Reaches(f.out, f.start, k)
    decreases s.rank[k]
  {
    assert Entered(f, s.rank, k, s.rank[k]);
    if k == f.start {
      ReachesRefl(f.out, k);
    } else {
      var h: Hop :| HasHop(f.out, h) && h.target == k && h.source in s.rank && s.rank[h.source] < s.rank[k];
      EnteredReaches(f, s, h.source);
      HopLeads(f.out, h);
      ReachesTrans(f.out, f.start, h.source, k);
    }
  }

  /** `k` and every node with an edge kept all they were checked with. */
  ghost predicate SteadyUpTo(f: Flow, s: Sweep, k: Key) {
    forall j :: j in s.checked && j in s.at && (j == k || Edges(f.out, j) != []) ==> s.at[j] == s.checked[j]
  }

  lemma {:induction false} KeptWhenSteady(f: Flow, s: Sweep, w: seq<Hop>, k: Key, r: Reference)
    requires Sound(f, s) && s.pending == [] && SteadyUpTo(f, s, k)
    requires k in s.checked && r in s.checked[k] && IsWalk(f.out, f.start, w, k)
    ensures r in WalkAvail(f, w)
    decreases |w|
  {
    assert k in s.at && Meet(f, s.rank, s.checked, k, |s.rank|, r);
    if w != [] {
      var h := w[|w| - 1];
      assert IsWalk(f.out, f.start, w[..|w| - 1], h.source);
      FinalReached(f, s, h.source);
      if r !in Gain(f, h.source, h.edge) {
        KeptWhenSteady(f, s, w[..|w| - 1], h.source, r);
      }
    }
  }

  lemma MissingAtWalk(f: Flow, s: Sweep, k: Key, r: Reference) returns (w: seq<Hop>)
    requires Sound(f, s) && k in s.at && r !in s.at[k]
    ensures IsWalk(f.out, f.start, w, k) && r !in WalkAvail(f, w)
  {
    if k == f.start && r !in f.base {
      w := [];
    } else {
      assert !Meet(f, s.rank, s.checked, k, |s.rank|, r);
      var h := LostOver(f, s, k, |s.rank|, r);
      var v := MissingWalk(f, s, h.source, r);
      MissingSnoc(f, s, v, h, k, |s.rank|, r);
      w := v + [h];
    }
  }

  lemma AtInsideChecked(f: Flow, s: Sweep, k: Key)
    requires Sound(f, s) && k in s.checked
    ensures s.at[k] <= s.checked[k]
  {
    forall r | r in s.at[k]
      ensures r in s.checked[k]
    {
      assert Meet(f, s.rank, s.checked, k, |s.rank|, r);
      assert Meet(f, s.rank, s.checked, k, s.rank[k], r);
    }
  }

  lemma ExactAt(f: Flow, s: Sweep, k: Key, r: Reference)
    requires Sound(f, s) && Exact(f, s) && k in s.checked && r in s.checked[k]
    ensures r in s.at[k]
  {
    assert OnEveryWalk(f, k, r);
    if r !in s.at[k] {
      var w := MissingAtWalk(f, s, k, r);
    }
  }

  lemma ExactWhenSteady(f: Flow, s: Sweep, k: Key, r: Reference)
    requires Sound(f, s) && s.pending == [] && SteadyUpTo(f, s, k) && k in s.checked
    ensures r in s.checked[k] <==> OnEveryWalk(f, k, r)
  {
    RejectionHasWalk(f, s, k, r);
    if r in s.checked[k] {
      forall w | IsWalk(f.out, f.start, w, k)
        ensures r in WalkAvail(f, w)
      {
        KeptWhenSteady(f, s, w, k, r);
      }
    }
  }

  lemma ExactAtEqual(f: Flow, s: Sweep, k: Key)
    requires Sound(f, s) && Exact(f, s) && k in s.checked
    ensures s.at[k] == s.checked[k]
  {
    AtInsideChecked(f, s, k);
    forall r | r in s.checked[k]
      ensures r in s.at[k]
    {
      ExactAt(f, s, k, r);
    }
  }

  /** The result is exact if and only if no popped node lost a reference to a later edge. */
  lemma ExactIffNeverShrunk(f: Flow, s: Sweep)
    requires Sound(f, s) && s.pending == []
    ensures Exact(f, s) <==> NeverShrunk(s)
  {
    if NeverShrunk(s) {
      forall k, r | k in s.checked
        ensures r in s.checked[k] <==> OnEveryWalk(f, k, r)
      {
        ExactWhenSteady(f, s, k, r);
      }
    }
    if Exact(f, s) {
      forall k | k in s.checked
        ensures s.at[k] == s.checked[k]
      {
        ExactAtEqual(f, s, k);
      }
    }
  }

  /** Every node was popped after all the popped nodes that point at it. */
  ghost predicate Topological(f: Flow, s: Sweep) {
    forall h: Hop :: HasHop(f.out, h) && h.source in s.rank && h.target in s.rank ==>
      s.rank[h.source] < s.rank[h.target]
  }

  lemma TopologicalExact(f: Flow, s: Sweep)
    requires Sound(f, s) && s.pending == [] && Topological(f, s)
    ensures Exact(f, s)
  {
    forall k | k in s.checked
      ensures s.at[k] == s.checked[k]
    {
      forall r
        ensures r in s.at[k] <==> r in s.checked[k]
      {
        assert Meet(f, s.rank, s.checked, k, |s.rank|, r) <==> Meet(f, s.rank, s.checked, k, s.rank[k], r);
      }
    }
    ExactIffNeverShrunk(f, s);
  }
}
