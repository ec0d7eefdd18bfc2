/** Runs of the clock authority that do happen: crossed locks, a cache left behind, and faults that get lost. */
module ClockWitnesses {
  import opened Prelude
  import opened ClockCore
  import opened ClockLatch
  import opened Quorum
  import opened ClockRuns
  import opened ClockLocks

  const TWO_VOTERS := Members(None, [{1, 2}])

  lemma TwoVoters()
    ensures VotersOf(TWO_VOTERS) == {1, 2} && |VotersOf(TWO_VOTERS)| == 2 && JointQuorum(TWO_VOTERS.configs, {1, 2})
  {
    assert TWO_VOTERS.configs[1..] == [] && VotersOf(TWO_VOTERS) == {1, 2};
    assert {1, 2} * {1, 2} == {1, 2};
  }

  // ----- steps towards a fault that can be acknowledged -----

  /** Nothing but the monitor differs from `base`, where task 2 is idle and the monitor lock free. */
  ghost predicate Alongside(s: State, base: State) {
    && s.cache == base.cache && s.tag == base.tag && s.cacheHolder == base.cacheHolder && s.members == base.members
    && s.local == base.local && s.clears == base.clears
    && s.unfinished == base.unfinished && s.answers == base.answers && s.monitorHolder.None? && TaskOf(s, 2).Idle?
    && forall u: nat :: u != 2 ==> TaskOf(s, u) == TaskOf(base, u)
  }

  /** The fault is recorded, and the clock was healthy again from `since` on. */
  ghost predicate Warming(s: State, base: State, at: nat, since: Option<nat>) {
    Reachable(s) && Alongside(s, base) && s.core.stored && s.core.monitor == Monitor(Some(Reading(at, at)), true, true, since)
  }

  lemma WarmReading(c: Core, at: nat, since: Option<nat>)
    requires c.monitor == Monitor(Some(Reading(at, at)), true, true, since)
    ensures var c' := BeginSample(c, Some(Reading(at + 2000, at + 2000)), 0);
            && c'.monitor == Monitor(Some(Reading(at + 2000, at + 2000)), true, true, Some(if since.Some? then since.value else at + 2000))
            && c'.stored == c.stored
  {
  }

  /** A sample while the fault is latched and recorded only observes. */
  lemma SampleWhileLatched(s: State, t: nat, clock: Option<Reading>, watermark: nat)
    requires TaskOf(s, t).Idle? && s.monitorHolder.None? && s.cacheHolder != Some(t) && s.core.monitor.faulted && s.core.monitor.recorded
    ensures Step(s, Sample(t, clock, watermark)) == Put(s, t, Idle).(core := BeginSample(s.core, clock, watermark))
  {
  }

  lemma NotInside(s: State, t: nat)
    requires Reachable(s) && TaskOf(s, t).Idle?
    ensures s.cacheHolder != Some(t) && s.monitorHolder != Some(t)
  {
    ReachableInv(s);
  }

  lemma WarmMore(s: State, base: State, at: nat, since: Option<nat>) returns (s': State)
    requires Warming(s, base, at, since)
    ensures Warming(s', base, at + 2000, Some(if since.Some? then since.value else at + 2000))
  {
    var clock := Some(Reading(at + 2000, at + 2000));
    NotInside(s, 2);
    SampleWhileLatched(s, 2, clock, 0);
    WarmReading(s.core, at, since);
    s' := Step(s, Sample(2, clock, 0));
    ReachableStep(s, Sample(2, clock, 0));
  }

  lemma WarmUp(s: State, base: State) returns (s': State)
    requires Warming(s, base, 0, None)
    ensures Warming(s', base, 10000, Some(2000))
  {
    s' := WarmMore(s, base, 0, None);
    s' := WarmMore(s', base, 2000, Some(2000));
    s' := WarmMore(s', base, 4000, Some(2000));
    s' := WarmMore(s', base, 6000, Some(2000));
    s' := WarmMore(s', base, 8000, Some(2000));
  }

  /** A clock that could not be read, or boot time that went back to 0. */
  ghost predicate FaultyClock(base: State, clock: Option<Reading>) {
    match clock
    case None => base.core.monitor.previous == Some(Reading(0, 0))
    case Some(now) => now == Reading(0, 0) && base.core.monitor.previous.Some? && base.core.monitor.previous.value.boot > 0
  }

  /** Task 2 is free to sample, and the monitor has no fault. */
  ghost predicate Calm(base: State) {
    && Reachable(base) && base.monitorHolder.None? && TaskOf(base, 2).Idle?
    && !base.core.monitor.faulted && !base.core.monitor.recorded
  }

  lemma NewFault(base: State, clock: Option<Reading>)
    requires Calm(base) && FaultyClock(base, clock)
    ensures var c := BeginSample(base.core, clock, 0);
            && MustRecord(c) && c.monitor == Monitor(Some(Reading(0, 0)), true, false, None)
            && Step(base, Sample(2, clock, 0)) == Put(base, 2, Recording).(core := c, monitorHolder := Some(2))
  {
  }

  lemma Recorded(s: State, base: State)
    requires TaskOf(base, 2).Idle? && base.cacheHolder != Some(2) && base.monitorHolder.None? && MustRecord(s.core)
    requires s == Put(base, 2, Recording).(core := s.core, monitorHolder := Some(2))
    ensures Step(s, Record(2, true)) == Put(s, 2, Idle).(core := EndRecord(s.core, true), monitorHolder := None)
    ensures Alongside(Step(s, Record(2, true)), base)
  {
  }

  /** Task 2 samples a fault that is not the first reading, records it, and the clock starts again at 0. */
  lemma Faulted(base: State, clock: Option<Reading>) returns (s: State)
    requires Calm(base) && FaultyClock(base, clock)
    ensures Warming(s, base, 0, None)
  {
    NotInside(base, 2);
    NewFault(base, clock);
    var recording := Step(base, Sample(2, clock, 0));
    ReachableStep(base, Sample(2, clock, 0));
    Recorded(recording, base);
    s := Step(recording, Record(2, true));
    ReachableStep(recording, Record(2, true));
  }

  /** Task 2 acknowledges: the test has passed and the write is under way. */
  lemma AckPassed(s: State, base: State) returns (s': State)
    requires Warming(s, base, 10000, Some(2000))
    ensures Reachable(s') && TaskOf(s', 2) == AckStoring(0) && s'.monitorHolder == Some(2)
    ensures s'.core.monitor == Monitor(Some(Reading(12000, 12000)), true, true, Some(2000)) && s'.core.stored
    ensures Alongside(s'.(tasks := s'.tasks[2 := Idle], monitorHolder := None), base)
  {
    var e := Acknowledge(2, true, Some(Reading(12000, 12000)), Some(0));
    s' := Step(s, e);
    ReachableStep(s, e);
  }

  /** A fault was recorded and acknowledged, up to the write. */
  lemma Storing(base: State, clock: Option<Reading>) returns (s: State)
    requires Calm(base) && FaultyClock(base, clock)
    ensures Reachable(s) && TaskOf(s, 2) == AckStoring(0) && s.monitorHolder == Some(2)
    ensures s.core.monitor == Monitor(Some(Reading(12000, 12000)), true, true, Some(2000)) && s.core.stored
    ensures s.cache == base.cache && s.tag == base.tag && s.cacheHolder == base.cacheHolder && s.members == base.members
    ensures s.clears == base.clears
    ensures forall u: nat :: u != 2 ==> TaskOf(s, u) == TaskOf(base, u)
  {
    var faulted := Faulted(base, clock);
    var warm := WarmUp(faulted, base);
    s := AckPassed(warm, base);
    assert forall u: nat :: u != 2 ==> TaskOf(s.(tasks := s.tasks[2 := Idle], monitorHolder := None), u) == TaskOf(s, u);
  }

  lemma Stored(s: State)
    requires TaskOf(s, 2) == AckStoring(0)
    ensures Step(s, AckStore(2, true)) == Put(s, 2, AckClearing).(core := AckClear(s.core, 0), clears := s.clears + 1, unfinished := true)
  {
  }

  /** The flag is cleared, and task 2 waits for the cache lock. */
  lemma Clearing(base: State, clock: Option<Reading>) returns (s: State)
    requires Calm(base) && FaultyClock(base, clock)
    ensures Reachable(s) && TaskOf(s, 2) == AckClearing && s.monitorHolder == Some(2)
    ensures !s.core.monitor.faulted && s.core.monitor.previous == Some(Reading(12000, 12000)) && s.unfinished
    ensures s.cache == base.cache && s.tag == base.tag && s.cacheHolder == base.cacheHolder && s.members == base.members
    ensures s.clears == base.clears + 1
    ensures forall u: nat :: u != 2 ==> TaskOf(s, u) == TaskOf(base, u)
  {
    var storing := Storing(base, clock);
    Stored(storing);
    s := Step(storing, AckStore(2, true));
    ReachableStep(storing, AckStore(2, true));
  }

  // ----- crossed locks -----

  /** A good reading lets a sample go on. */
  lemma GoodReading(c: Core, at: nat)
    requires c.monitor.previous in {None, Some(Reading(at, at))} && !c.monitor.faulted
    ensures var c' := BeginSample(c, Some(Reading(at, at)), 0);
            && !c'.monitor.faulted && c'.monitor.recorded == c.monitor.recorded && c'.monitor.previous == Some(Reading(at, at))
  {
  }

  lemma FirstSampled(s: State, t: nat, at: nat)
    requires s.monitorHolder.None? && TaskOf(s, t).Idle?
    requires s.core.monitor.previous in {None, Some(Reading(at, at))} && !s.core.monitor.faulted
    ensures Step(s, FirstSample(t, true, Some(Reading(at, at)), 0)) ==
            Put(s, t, GotBefore(true, at, s.clears)).(core := SampleOk(BeginSample(s.core, Some(Reading(at, at)), 0)))
  {
    GoodReading(s.core, at);
  }

  lemma MembersRead(s: State, t: nat, at: nat)
    requires s.members == TWO_VOTERS && TaskOf(s, t) == GotBefore(true, at, s.clears)
    ensures Step(s, ReadMembers(t)) == Put(s, t, GotMembers(true, at, TWO_VOTERS))
  {
    TwoVoters();
  }

  /** A quorum call by task `t` has read the membership. */
  lemma CallStarted(s: State, t: nat, at: nat) returns (s': State)
    requires Reachable(s) && s.members == TWO_VOTERS && s.monitorHolder.None? && TaskOf(s, t).Idle?
    requires s.core.monitor.previous in {None, Some(Reading(at, at))} && !s.core.monitor.faulted
    ensures Reachable(s') && TaskOf(s', t) == GotMembers(true, at, TWO_VOTERS)
    ensures s'.core.monitor.previous == Some(Reading(at, at)) && !s'.core.monitor.faulted
    ensures s'.core.monitor.recorded == s.core.monitor.recorded
    ensures forall u: nat :: u != t ==> TaskOf(s', u) == TaskOf(s, u)
    ensures s' == s.(core := s'.core, tasks := s'.tasks)
  {
    var e := FirstSample(t, true, Some(Reading(at, at)), 0);
    GoodReading(s.core, at);
    FirstSampled(s, t, at);
    var before := Step(s, e);
    ReachableStep(s, e);
    MembersRead(before, t, at);
    s' := Step(before, ReadMembers(t));
    ReachableStep(before, ReadMembers(t));
  }

  lemma Probing(s: State, t: nat, at: nat, responding: set<nat>) returns (s': State)
    requires Reachable(s) && TaskOf(s, t) == GotMembers(true, at, TWO_VOTERS) && s.cacheHolder.None? && s.cache.None? && s.local == 1
    ensures Reachable(s') && TaskOf(s', t) == Probed(true, TWO_VOTERS, FullRound({1, 2}, 1, responding)) && s'.cacheHolder == Some(t)
    ensures s' == s.(tasks := s'.tasks, cacheHolder := Some(t)) && forall u: nat :: u != t ==> TaskOf(s', u) == TaskOf(s, u)
  {
    TwoVoters();
    s' := Step(s, TakeCache(t, true, responding));
    ReachableStep(s, TakeCache(t, true, responding));
  }

  /** The crossing really happens: a fault is acknowledged while an older quorum call is still probing. */
  lemma CrossedLocksReachable() returns (s: State)
    ensures Reachable(s) && CrossedLocks(s, 2, 1)
  {
    s := Start(false, TWO_VOTERS, 1);
    ReachableStart(false, TWO_VOTERS, 1);
    s := CallStarted(s, 1, 0);
    s := Probing(s, 1, 0, {});
    s := Clearing(s, None);
  }

  // ----- a cache left behind -----

  lemma SecondSampled(s: State, t: nat, at: nat)
    requires s.monitorHolder.None? && TaskOf(s, t) == Probed(true, TWO_VOTERS, {1, 2})
    requires s.core.monitor.previous == Some(Reading(at, at)) && !s.core.monitor.faulted
    ensures Step(s, SecondSample(t, Some(Reading(at, at)), 0)) ==
            Put(s, t, GotAfter(true, TWO_VOTERS, {1, 2}, at, s.clears)).(core := SampleOk(BeginSample(s.core, Some(Reading(at, at)), 0)))
  {
    GoodReading(s.core, at);
  }

  lemma FreshAnswer(s: State, t: nat, at: nat)
    requires s.members == TWO_VOTERS && TaskOf(s, t) == GotAfter(true, TWO_VOTERS, {1, 2}, at, s.clears)
    ensures var q := VoterQuorum(TWO_VOTERS, {1, 2}, at);
            Step(s, Conclude(t)) == Reply(s, t, Fresh, q, s.clears, TWO_VOTERS, at).(cache := Some(q), tag := s.clears, cacheHolder := None)
  {
    TwoVoters();
  }

  /** A probing call samples again and fills the cache. */
  lemma Concluded(s: State, t: nat, at: nat) returns (s': State)
    requires Reachable(s) && TaskOf(s, t) == Probed(true, TWO_VOTERS, {1, 2}) && s.monitorHolder.None? && s.members == TWO_VOTERS
    requires s.core.monitor.previous == Some(Reading(at, at)) && !s.core.monitor.faulted
    ensures Reachable(s') && s'.cache == Some(VoterQuorum(TWO_VOTERS, {1, 2}, at)) && s'.cacheHolder.None? && s'.monitorHolder.None?
    ensures s'.members == TWO_VOTERS && s'.core.monitor.previous == Some(Reading(at, at)) && TaskOf(s', t).Idle?
    ensures !s'.core.monitor.faulted && s'.core.monitor.recorded == s.core.monitor.recorded && s'.tag == s'.clears == s.clears
    ensures forall u: nat :: u != t ==> TaskOf(s', u) == TaskOf(s, u)
  {
    var second := SecondSample(t, Some(Reading(at, at)), 0);
    GoodReading(s.core, at);
    SecondSampled(s, t, at);
    var after := Step(s, second);
    ReachableStep(s, second);
    FreshAnswer(after, t, at);
    s' := Step(after, Conclude(t));
    ReachableStep(after, Conclude(t));
  }

  /** Task 1 has filled the cache at boot time 100000, and task 3 has read the membership at that time. */
  lemma CacheFilled() returns (s: State)
    ensures Reachable(s) && s.members == TWO_VOTERS && s.monitorHolder.None? && s.cacheHolder.None?
    ensures s.cache == Some(VoterQuorum(TWO_VOTERS, {1, 2}, 100000)) && TaskOf(s, 2).Idle?
    ensures TaskOf(s, 3) == GotMembers(true, 100000, TWO_VOTERS) && s.tag == s.clears == 0
    ensures s.core.monitor.previous == Some(Reading(100000, 100000)) && !s.core.monitor.faulted && !s.core.monitor.recorded
  {
    s := Start(false, TWO_VOTERS, 1);
    ReachableStart(false, TWO_VOTERS, 1);
    s := CallStarted(s, 1, 100000);
    s := Probing(s, 1, 100000, {2});
    assert FullRound({1, 2}, 1, {2}) == {1, 2};
    s := Concluded(s, 1, 100000);
    s := CallStarted(s, 3, 100000);
  }

  /**
   * The one exception to `CacheNeverAhead` happens: boot time went back, the fault was acknowledged, and
   * while the acknowledgement waits for the cache lock the monitor is not faulted and the cache is ahead.
   */
  lemma StaleCacheReachable() returns (s: State)
    ensures Reachable(s) && !s.core.monitor.faulted && s.cacheHolder.None? && s.monitorHolder == Some(2) && TaskOf(s, 2).AckClearing?
    ensures s.cache == Some(VoterQuorum(TWO_VOTERS, {1, 2}, 100000)) && s.core.monitor.previous == Some(Reading(12000, 12000))
    ensures TaskOf(s, 3) == GotMembers(true, 100000, TWO_VOTERS) && s.tag < s.clears
  {
    s := CacheFilled();
    s := Clearing(s, Some(Reading(0, 0)));
  }

  /** A waiting quorum call is answered from that cache, although no boot time near it was observed since the reversal. */
  lemma StaleAnswerReachable() returns (s: State)
    ensures Reachable(s) && !s.core.monitor.faulted && s.answers != []
    ensures var a := s.answers[|s.answers| - 1];
            a.kind == Cached(QUORUM_REFRESH_MS) && a.quorum.checkedBoot == 100000 && a.lastBoot == Some(12000) && !a.current
  {
    var stale := StaleCacheReachable();
    ReachableInv(stale);
    assert TaskOk(stale, 2, TaskOf(stale, 2));
    s := Step(stale, TakeCache(3, true, {}));
    ReachableStep(stale, TakeCache(3, true, {}));
  }

  lemma ClearingDropped(s: State)
    requires TaskOf(s, 2).AckClearing? && s.monitorHolder == Some(2) && s.cacheHolder.None?
    ensures Step(s, Dropped(2, false)) == Put(s, 2, Idle).(monitorHolder := None)
  {
  }

  /** Dropping that acknowledgement frees the monitor: not faulted, yet still latched and with the old cache. */
  lemma DroppedAckLeavesLatched() returns (s: State)
    ensures Reachable(s) && s.monitorHolder.None? && !s.core.monitor.faulted && s.core.signal == Latched
    ensures s.cache == Some(VoterQuorum(TWO_VOTERS, {1, 2}, 100000)) && s.core.monitor.previous == Some(Reading(12000, 12000))
  {
    var stale := CacheFilled();
    stale := Clearing(stale, Some(Reading(0, 0)));
    ClearingDropped(stale);
    s := Step(stale, Dropped(2, false));
    ReachableStep(stale, Dropped(2, false));
    SignalMatchesAtRelease(s);
  }

  /**
   * The next sample succeeds there, with the signal still latched: the recorded fault is over although
   * the one acknowledgement that cleared the monitor never succeeded.
   */
  lemma SampleWithoutAckSuccess() returns (s: State, i: nat)
    ensures Reachable(s) && s.clears == 1 && s.unfinished && s.core.signal == Latched
    ensures i < |s.core.log| - 1 && s.core.log[i].NoteRecorded? && s.core.log[|s.core.log| - 1] == NoteSampleOk(s.core.history)
  {
    var filled := CacheFilled();
    var storing := Storing(filled, Some(Reading(0, 0)));
    i := RecordOf(storing);
    var dropped := DroppedWhileClearing(storing);
    s := SampledLatched(dropped);
  }

  lemma DroppedWhileClearing(storing: State) returns (s: State)
    requires Reachable(storing) && TaskOf(storing, 2) == AckStoring(0) && storing.monitorHolder == Some(2) && storing.cacheHolder.None?
    requires storing.core.monitor == Monitor(Some(Reading(12000, 12000)), true, true, Some(2000))
    ensures Reachable(s) && s.monitorHolder.None? && s.unfinished && s.clears == storing.clears + 1 && TaskOf(s, 2).Idle?
    ensures s.core.monitor == Monitor(Some(Reading(12000, 12000)), false, false, Some(2000))
    ensures s.core.log == storing.core.log + [NoteAckOk(storing.core.history, 0)]
  {
    Stored(storing);
    var clearing := Step(storing, AckStore(2, true));
    ReachableStep(storing, AckStore(2, true));
    ClearingDropped(clearing);
    s := Step(clearing, Dropped(2, false));
    ReachableStep(clearing, Dropped(2, false));
  }

  lemma SampledLatched(s: State) returns (s': State)
    requires Reachable(s) && s.monitorHolder.None? && s.unfinished && TaskOf(s, 2).Idle?
    requires s.core.monitor == Monitor(Some(Reading(12000, 12000)), false, false, Some(2000))
    ensures Reachable(s') && s'.unfinished && s'.clears == s.clears && s'.core.signal == Latched
    ensures s'.core.log == s.core.log + [NoteSampleOk(s'.core.history)]
  {
    var e := Sample(2, Some(Reading(12000, 12000)), 0);
    assert s.core.log + [] == s.core.log;
    s' := Step(s, e);
    ReachableStep(s, e);
    SignalMatchesAtRelease(s');
  }

  // ----- faults that get lost -----

  /**
   * An acknowledgement dropped during its write clears the flag without succeeding; after a crash the
   * next process samples although no acknowledgement of the recorded fault ever finished.
   */
  lemma DroppedAckForgets() returns (s: State, i: nat, j: nat)
    ensures Reachable(s) && i < j < |s.core.log| && s.core.log[i].NoteRecorded? && s.core.log[j].NoteSampleOk?
    ensures forall k: nat :: i < k < j ==> !s.core.log[k].NoteAckOk?
  {
    var base := Start(false, TWO_VOTERS, 1);
    ReachableStart(false, TWO_VOTERS, 1);
    base := CallStarted(base, 1, 0);
    var storing := Storing(base, None);
    i := RecordOf(storing);
    var dropped := DroppedClears(storing);
    s := SamplesAfterCrash(dropped, Reading(0, 0));
    j := |s.core.log| - 1;
  }

  lemma RecordOf(s: State) returns (i: nat)
    requires Reachable(s) && s.core.stored
    ensures i < |s.core.log| && s.core.log[i].NoteRecorded? && forall k: nat :: i < k < |s.core.log| ==> !s.core.log[k].NoteAckOk?
  {
    ReachableInv(s);
    i := StoredHasRecord(s.core.log);
  }

  /** The stored flag goes back to a record that no acknowledgement has answered. */
  lemma {:induction false} StoredHasRecord(log: seq<Note>) returns (i: nat)
    requires StoredOf(log)
    ensures i < |log| && log[i].NoteRecorded? && forall k: nat :: i < k < |log| ==> !log[k].NoteAckOk?
    decreases |log|
  {
    if log[|log| - 1].NoteRecorded? {
      i := |log| - 1;
    } else {
      i := StoredHasRecord(log[..|log| - 1]);
    }
  }

  lemma DroppedClears(storing: State) returns (s: State)
    requires Reachable(storing) && TaskOf(storing, 2) == AckStoring(0)
    ensures Reachable(s) && s.core.log == storing.core.log + [NoteUnstored(storing.core.history, 0)] && !s.core.stored
  {
    s := Step(storing, Dropped(2, true));
    ReachableStep(storing, Dropped(2, true));
  }

  lemma FirstReading(c: Core, now: Reading)
    requires c.monitor == Monitor(None, false, false, None)
    ensures var c' := BeginSample(c, Some(now), 0); !c'.monitor.faulted && c'.log == c.log && c'.history == c.history + [Seen(now, 0, false)]
  {
    assert c.log + [] == c.log;
  }

  lemma NewlySampled(s: State, now: Reading)
    requires s.core.monitor == Monitor(None, false, false, None) && s.core.history == []
    requires s.monitorHolder.None? && TaskOf(s, 2).Idle?
    ensures var c := Step(s, Sample(2, Some(now), 0)).core;
            c.log == s.core.log + [NoteSampleOk([Seen(now, 0, false)])] && !c.monitor.faulted
  {
    FirstReading(s.core, now);
    assert [] + [Seen(now, 0, false)] == [Seen(now, 0, false)];
  }

  /** A process that finds no stored fault samples as if nothing had happened. */
  lemma SamplesAfterCrash(s: State, now: Reading) returns (s': State)
    requires Reachable(s) && !s.core.stored
    ensures Reachable(s') && s'.core.log == s.core.log + [NoteRestart(false)] + [NoteSampleOk([Seen(now, 0, false)])] && !s'.core.monitor.faulted
  {
    var restarted := Step(s, Crash);
    ReachableStep(s, Crash);
    NewlySampled(restarted, now);
    s' := Step(restarted, Sample(2, Some(now), 0));
    ReachableStep(restarted, Sample(2, Some(now), 0));
  }

  /** A crash between the observation of a fault and its write: the next process samples as if nothing had happened. */
  lemma UnrecordedFaultLost(members: Members, local: nat, now: Reading) returns (s: State)
    ensures Reachable(s) && s.core.log == [NoteFault, NoteRestart(false), NoteSampleOk([Seen(now, 0, false)])] && !s.core.monitor.faulted
  {
    var start := Start(false, members, local);
    ReachableStart(false, members, local);
    var faulted := Step(start, Sample(0, None, 0));
    ReachableStep(start, Sample(0, None, 0));
    assert faulted.core.log == [] + [NoteFault];
    s := SamplesAfterCrash(faulted, now);
    assert s.core.log == [NoteFault] + [NoteRestart(false)] + [NoteSampleOk([Seen(now, 0, false)])];
  }
}
