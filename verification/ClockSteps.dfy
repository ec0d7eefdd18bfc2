/** What every event does to the stored flag and to the fault, seen from outside. */
module ClockSteps {
  import opened Prelude
  import opened ClockCore
  import opened ClockLatch
  import opened ClockRuns

  predicate Writing(task: Task) {
    task.Recording? || task.RecordingFirst? || task.RecordingSecond?
  }

  /** A write of a fault is done: by the call that waits for it, or after that call was dropped. */
  ghost predicate FaultWritten(s: State, e: Event) {
    (e.Record? || e.Dropped?) && e.written && Writing(TaskOf(s, e.task))
  }

  /** The write of an acknowledgement is done, likewise. */
  ghost predicate ClearWritten(s: State, e: Event) {
    (e.AckStore? || e.Dropped?) && e.written && TaskOf(s, e.task).AckStoring?
  }

  /** A sample that is made now: the monitor is free and the call is where it samples. */
  ghost predicate Samples(s: State, e: Event) {
    || ((e.Sample? || e.FirstSample?) && s.monitorHolder.None? && TaskOf(s, e.task).Idle?)
    || (e.SecondSample? && s.monitorHolder.None? && TaskOf(s, e.task).Probed?)
  }

  /** The flag is set by the write of a fault, cleared by that of an acknowledgement, and left alone by everything else. */
  lemma StoredLaw(s: State, e: Event)
    requires Reachable(s)
    ensures Step(s, e).core.stored == (FaultWritten(s, e) || (s.core.stored && !ClearWritten(s, e)))
  {
    ReachableInv(s);
    if e.Record? || e.Dropped? || e.AckStore? {
      assert TaskOk(s, e.task, TaskOf(s, e.task));
      WriteStored(s, e);
    } else if Samples(s, e) {
      SampleStored(s, e);
    } else if e.Acknowledge? {
      AcknowledgeKeeps(s, e);
    } else {
      StoredKept(s, e);
    }
  }

  lemma WriteStored(s: State, e: Event)
    requires (e.Record? || e.Dropped? || e.AckStore?) && TaskOk(s, e.task, TaskOf(s, e.task))
    ensures Step(s, e).core.stored == (FaultWritten(s, e) || (s.core.stored && !ClearWritten(s, e)))
  {
  }

  lemma SampleStored(s: State, e: Event)
    requires Samples(s, e)
    ensures Step(s, e).core.stored == s.core.stored
  {
  }

  lemma AcknowledgeKeeps(s: State, e: Event)
    requires e.Acknowledge?
    ensures Step(s, e).core.stored == s.core.stored && Step(s, e).core.monitor.faulted == s.core.monitor.faulted
  {
  }

  lemma StoredKept(s: State, e: Event)
    requires !e.Record? && !e.Dropped? && !e.AckStore? && !e.Acknowledge? && !Samples(s, e)
    ensures Step(s, e).core.stored == s.core.stored
  {
  }

  /** The sample reads no clock, or an untrue one. */
  ghost predicate GoesWrong(s: State, e: Event)
    requires e.Sample? || e.FirstSample? || e.SecondSample?
  {
    e.clock.None? || Untrue(s.core.monitor.previous, e.clock.value, e.watermark)
  }

  /**
   * A fault begins with a sample that goes wrong, ends with the write of an acknowledgement whose call is
   * still there, and outlasts a crash exactly if it was stored.
   */
  lemma FaultLaw(s: State, e: Event)
    requires Reachable(s)
    ensures Step(s, e).core.monitor.faulted ==
            if e.Crash? then s.core.stored
            else if Samples(s, e) then s.core.monitor.faulted || GoesWrong(s, e)
            else s.core.monitor.faulted && !(e.AckStore? && ClearWritten(s, e))
  {
    ReachableInv(s);
    if Samples(s, e) {
      SampleFaults(s, e);
    } else if e.AckStore? {
      assert TaskOk(s, e.task, TaskOf(s, e.task));
    } else if e.Acknowledge? {
      AcknowledgeKeeps(s, e);
    } else {
      FaultKept(s, e);
    }
  }

  lemma SampleFaults(s: State, e: Event)
    requires Samples(s, e)
    ensures Step(s, e).core.monitor.faulted == (s.core.monitor.faulted || GoesWrong(s, e))
  {
    if e.clock.Some? {
      FaultyIffUntrue(s.core.monitor, e.clock.value, e.watermark);
    }
  }

  lemma FaultKept(s: State, e: Event)
    requires !Samples(s, e) && !e.AckStore? && !e.Acknowledge?
    ensures Step(s, e).core.monitor.faulted == if e.Crash? then s.core.stored else s.core.monitor.faulted
  {
  }

  /** Where a call stands after a sample that went well. */
  function Onward(s: State, e: Event): Task
    requires (e.Sample? || e.FirstSample? || e.SecondSample?) && e.clock.Some?
  {
    var task := TaskOf(s, e.task);
    if e.FirstSample? then GotBefore(e.allow, e.clock.value.boot, s.clears)
    else if e.SecondSample? && task.Probed? then GotAfter(task.allow, task.members, task.healthy, e.clock.value.boot, s.clears)
    else Idle
  }

  /** A sample goes on exactly if there was no fault and is none now; a fault not yet recorded is written first, under the lock. */
  lemma SampleLaw(s: State, e: Event)
    requires Samples(s, e)
    ensures var (s', t, well) := (Step(s, e), e.task, !s.core.monitor.faulted && !GoesWrong(s, e));
            && (well ==> TaskOf(s', t) == Onward(s, e) && s'.core.log == s.core.log + [NoteSampleOk(s'.core.history)])
            && (!well && !s.core.monitor.recorded ==> Writing(TaskOf(s', t)) && s'.monitorHolder == Some(t))
            && (!well && s.core.monitor.recorded ==> TaskOf(s', t).Idle? && s'.monitorHolder.None?)
  {
    if e.clock.Some? {
      FaultyIffUntrue(s.core.monitor, e.clock.value, e.watermark);
      assert s.core.log + [] == s.core.log;
    }
  }
}
