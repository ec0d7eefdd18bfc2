/** The order in which the clock authority's two locks are taken: when calls can go on, and when they cannot. */
module ClockLocks {
  import opened Prelude
  import opened ClockRuns

  /** An acknowledgement waits for the cache while a quorum call that holds it waits for the monitor. */
  ghost predicate CrossedLocks(s: State, a: nat, b: nat) {
    && TaskOf(s, a).AckClearing? && s.monitorHolder == Some(a)
    && TaskOf(s, b).Probed? && s.cacheHolder == Some(b)
  }

  predicate LockHeld(s: State) {
    s.monitorHolder.Some? || s.cacheHolder.Some?
  }

  /** The task that an event is a step of, if it is a step of a call. */
  function Actor(e: Event): Option<nat> {
    if e.ChangeMembers? || e.Crash? || e.Dropped? then None else Some(e.task)
  }

  /** A call that holds a lock takes a step of its own. */
  ghost predicate HolderMoves(s: State, e: Event) {
    Actor(e).Some? && (s.monitorHolder == Actor(e) || s.cacheHolder == Actor(e)) && Step(s, e) != s
  }

  lemma MonitorHolderMoves(s: State, a: nat) returns (e: Event)
    requires Inv(s) && s.monitorHolder == Some(a) && !TaskOf(s, a).AckClearing?
    ensures HolderMoves(s, e)
  {
    assert TaskOk(s, a, TaskOf(s, a));
    e := if TaskOf(s, a).AckStoring? then AckStore(a, true) else Record(a, true);
    assert TaskOf(Step(s, e), a) != TaskOf(s, a);
  }

  lemma ConcludeMoves(s: State, b: nat)
    requires s.cacheHolder == Some(b) && TaskOf(s, b).GotAfter?
    ensures HolderMoves(s, Conclude(b))
  {
    assert TaskOf(Step(s, Conclude(b)), b).Idle?;
  }

  lemma SecondSampleMoves(s: State, b: nat)
    requires s.cacheHolder == Some(b) && TaskOf(s, b).Probed? && s.monitorHolder.None?
    ensures HolderMoves(s, SecondSample(b, None, 0))
  {
    assert TaskOf(Step(s, SecondSample(b, None, 0)), b) != TaskOf(s, b);
  }

  lemma CacheHolderMoves(s: State, b: nat) returns (e: Event)
    requires s.cacheHolder == Some(b)
    requires TaskOf(s, b).GotAfter? || (TaskOf(s, b).Probed? && s.monitorHolder.None?)
    ensures HolderMoves(s, e)
  {
    if TaskOf(s, b).GotAfter? {
      e := Conclude(b);
      ConcludeMoves(s, b);
    } else {
      e := SecondSample(b, None, 0);
      SecondSampleMoves(s, b);
    }
  }

  lemma UncrossedMoves(s: State) returns (e: Event)
    requires Inv(s) && LockHeld(s) && forall a, b :: !CrossedLocks(s, a, b)
    ensures HolderMoves(s, e)
  {
    if s.monitorHolder.Some? && !TaskOf(s, s.monitorHolder.value).AckClearing? {
      e := MonitorHolderMoves(s, s.monitorHolder.value);
    } else if s.cacheHolder.Some? {
      var b := s.cacheHolder.value;
      assert TaskOk(s, b, TaskOf(s, b));
      assert s.monitorHolder.Some? ==> !CrossedLocks(s, s.monitorHolder.value, b);
      e := CacheHolderMoves(s, b);
    } else {
      e := AckFinish(s.monitorHolder.value);
      assert TaskOf(Step(s, e), s.monitorHolder.value).Idle?;
    }
  }

  lemma CrossedBlocks(s: State, a: nat, b: nat, e: Event)
    requires CrossedLocks(s, a, b) && (Actor(e) == Some(a) || Actor(e) == Some(b))
    ensures Step(s, e) == s
  {
  }

  /**
   * In every reachable state in which a lock is held, some call that holds one can take a step, if and
   * only if the locks are not crossed.
   */
  lemma ProgressIffUncrossed(s: State)
    requires Reachable(s) && LockHeld(s)
    ensures (exists e :: HolderMoves(s, e)) <==> forall a, b :: !CrossedLocks(s, a, b)
  {
    ReachableInv(s);
    if a: nat, b: nat :| CrossedLocks(s, a, b) {
      forall e
        ensures !HolderMoves(s, e)
      {
        if Actor(e) == Some(a) || Actor(e) == Some(b) {
          CrossedBlocks(s, a, b, e);
        }
      }
    } else {
      var e := UncrossedMoves(s);
    }
  }

  /** What ends a crossing of `a` and `b`. */
  predicate Uncrosses(e: Event, a: nat, b: nat) {
    e.Crash? || (e.Dropped? && (e.task == a || e.task == b))
  }

  lemma CrossedBeside(s: State, e: Event, a: nat, b: nat)
    requires CrossedLocks(s, a, b) && Actor(e).Some? && e.task != a && e.task != b && TaskOk(s, e.task, TaskOf(s, e.task))
    ensures CrossedLocks(Step(s, e), a, b) && Step(s, e).core == s.core
  {
  }

  lemma CrossedDropped(s: State, e: Event, a: nat, b: nat)
    requires CrossedLocks(s, a, b) && e.Dropped? && TaskOk(s, e.task, TaskOf(s, e.task))
    ensures CrossedLocks(Step(s, e), a, b) <==> e.task != a && e.task != b
    ensures e.task != a && e.task != b ==> Step(s, e).core == s.core
  {
  }

  lemma CrossedStep(s: State, e: Event, a: nat, b: nat)
    requires Inv(s) && CrossedLocks(s, a, b)
    ensures CrossedLocks(Step(s, e), a, b) <==> !Uncrosses(e, a, b)
    ensures CrossedLocks(Step(s, e), a, b) ==> Step(s, e).core == s.core
  {
    if Actor(e) == Some(a) || Actor(e) == Some(b) {
      CrossedBlocks(s, a, b, e);
    } else if Actor(e).Some? {
      assert TaskOk(s, e.task, TaskOf(s, e.task));
      CrossedBeside(s, e, a, b);
    } else if e.Dropped? {
      assert TaskOk(s, e.task, TaskOf(s, e.task));
      CrossedDropped(s, e, a, b);
    }
  }

  /** The two locks are taken in opposite orders; once crossed, only a restart or a dropped caller frees them. */
  lemma {:induction false} CrossedLocksStay(s: State, events: seq<Event>, a: nat, b: nat)
    requires Inv(s) && CrossedLocks(s, a, b) && forall i :: 0 <= i < |events| ==> !Uncrosses(events[i], a, b)
    ensures CrossedLocks(Run(s, events), a, b) && Run(s, events).core == s.core && Inv(Run(s, events))
    decreases |events|
  {
    if events != [] {
      var front, last := events[..|events| - 1], events[|events| - 1];
      CrossedLocksStay(s, front, a, b);
      CrossedStep(Run(s, front), last, a, b);
      StepInv(Run(s, front), last);
    }
  }
}
