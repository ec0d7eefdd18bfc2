/** The clock authority as an object: its fields are updated in place, under the monitor lock. */
module ClockAuthority {
  import opened Prelude
  import opened ClockCore
  import opened ClockLatch
  import opened Quorum

  /** The whole effect of one sample. */
  function Sampled(c: Core, clock: Option<Reading>, watermark: nat, written: bool): Core {
    Reported(BeginSample(c, clock, watermark), clock, written)
  }

  /** What follows the observation: a new fault is recorded, a good reading is reported. */
  function Reported(c: Core, clock: Option<Reading>, written: bool): Core {
    if MustRecord(c) then EndRecord(c, written)
    else if clock.Some? && !c.monitor.faulted then SampleOk(c)
    else c
  }

  /** The whole effect of one acknowledgement that got as far as reading the clocks. */
  function Acknowledged(c: Core, now: Reading, watermark: nat, written: bool): Core {
    var observed := AckObserve(c, now, watermark);
    if written && AckPasses(observed.monitor, now, watermark, Faulty(c.monitor, now, watermark)) then
      AckClear(observed, watermark).(signal := Healthy)
    else
      observed
  }

  /** The latch invariant, and a signal that agrees with it. */
  ghost predicate Consistent(c: Core) {
    CoreInv(c) && c.signal == SignalOf(c.monitor.faulted)
  }

  lemma SampledConsistent(c: Core, clock: Option<Reading>, watermark: nat, written: bool)
    requires Consistent(c)
    ensures Consistent(Sampled(c, clock, watermark, written))
  {
    var begun := BeginSample(c, clock, watermark);
    BeginSampleInv(c, clock, watermark);
    if MustRecord(begun) {
      EndRecordInv(begun, written);
    } else if clock.Some? && !begun.monitor.faulted {
      SampleOkInv(begun);
    }
  }

  class Authority {
    var previous: Option<Reading>
    var faulted: bool
    var recorded: bool
    var healthySince: Option<nat>
    var signal: Signal
    var stored: bool
    var lastQuorum: Option<VoterQuorum>
    ghost var history: seq<Entry>
    ghost var log: seq<Note>

    ghost function View(): Core
      reads this
    {
      Core(Monitor(previous, faulted, recorded, healthySince), stored, signal, history, log)
    }

    ghost predicate Valid()
      reads this
    {
      Consistent(View())
    }

    /** A new process over what storage has kept. */
    constructor (ghost before: Core, stored: bool)
      requires CoreInv(before) && before.stored == stored
      ensures Valid() && View() == Restart(before) && lastQuorum == None
    {
      RestartInv(before);
      previous, healthySince, lastQuorum := None, None, None;
      faulted, recorded, this.stored := stored, stored, stored;
      signal := if stored then Latched else Healthy;
      history, log := [], before.log + [NoteRestart(stored)];
    }

    method Observe(now: Reading, watermark: nat) returns (fault: bool)
      modifies this`previous, this`faulted, this`healthySince
      ensures fault == Faulty(old(View()).monitor, now, watermark)
      ensures fault <==> Untrue(old(previous), now, watermark)
      ensures View() == old(View()).(monitor := ClockCore.Observe(old(View()).monitor, now, watermark))
    {
      FaultyIffUntrue(View().monitor, now, watermark);
      fault := SatAdd(now.wall, 2000) < watermark;
      if previous.Some? {
        var delta := ClockDeltaFault(previous.value, now);
        if delta.Some? {
          fault := true;
        }
      }
      previous := Some(now);
      if fault {
        faulted := true;
        healthySince := None;
      } else if healthySince.None? {
        healthySince := Some(now.boot);
      }
    }

    /** Reads and observes the clocks, and latches the signal on a new fault. */
    method Look(clock: Option<Reading>, watermark: nat)
      modifies this`previous, this`faulted, this`healthySince, this`signal, this`history, this`log
      ensures View() == BeginSample(old(View()), clock, watermark)
      ensures clock.None? ==> faulted
    {
      var wasFaulted := faulted;
      if clock.None? {
        faulted := true;
        healthySince := None;
        history, log := history + [Unreadable], log + [NoteFault];
      } else {
        var fault := Observe(clock.value, watermark);
        history, log := history + [Seen(clock.value, watermark, fault)], log + if fault then [NoteFault] else [];
      }
      if faulted && !wasFaulted {
        signal := Latched;
      }
    }

    /** Records a new fault, if the write succeeds, or reports a good reading. */
    method Report(clock: Option<Reading>, written: bool) returns (r: Option<Reading>)
      requires clock.None? ==> faulted
      modifies this`stored, this`recorded, this`log
      ensures View() == Reported(old(View()), clock, written)
      ensures (r.Some? <==> !faulted) && (r.Some? ==> r == clock)
    {
      r := None;
      if faulted && !recorded {
        if written {
          stored := true;
          recorded := true;
          log := log + [NoteRecorded];
        }
      } else if !faulted {
        log := log + [NoteSampleOk(history)];
        r := clock;
      }
    }

    /** `clock` is the reading, or nothing if a clock could not be read; `written` tells whether a write would succeed. */
    method Sample(clock: Option<Reading>, watermark: nat, written: bool) returns (r: Option<Reading>)
      requires Valid()
      modifies this
      ensures Valid() && View() == Sampled(old(View()), clock, watermark, written) && lastQuorum == old(lastQuorum)
      ensures (r.Some? <==> !faulted) && (r.Some? ==> r == clock)
      ensures r.Some? <==> !old(faulted) && clock.Some? && !Untrue(old(previous), clock.value, watermark)
    {
      if clock.Some? {
        FaultyIffUntrue(View().monitor, clock.value, watermark);
      }
      SampledConsistent(View(), clock, watermark, written);
      Look(clock, watermark);
      r := Report(clock, written);
    }

    /** The observation and the test of an acknowledgement. */
    method Confirm(now: Reading, watermark: nat) returns (passes: bool)
      requires Valid() && faulted
      modifies this`previous, this`faulted, this`healthySince, this`history, this`log
      ensures Valid() && faulted && View() == AckObserve(old(View()), now, watermark)
      ensures passes == AckPasses(View().monitor, now, watermark, Faulty(old(View()).monitor, now, watermark))
      ensures passes <==> exists i: nat :: Evidence(history, i, watermark)
    {
      AckObserveInv(View(), now, watermark);
      AckIffEvidence(View().monitor, history, now, watermark);
      var fault := Observe(now, watermark);
      history, log := history + [Seen(now, watermark, fault)], log + if fault then [NoteFault] else [];
      var since := if healthySince.Some? then healthySince.value else now.boot;
      passes := !(fault || SatSub(now.boot, since) < ACK_HEALTHY_MS || SatSub(now.wall, ACK_MARGIN_MS) < watermark);
    }

    /** Clears the stored flag, the monitor, the cached quorum and the signal. */
    method Clear(watermark: nat)
      requires Valid() && faulted && exists i: nat :: Evidence(history, i, watermark)
      modifies this
      ensures Valid() && !faulted && lastQuorum == None && history == old(history)
      ensures View() == AckClear(old(View()), watermark).(signal := Healthy)
    {
      AckClearInv(View(), watermark);
      stored := false;
      faulted := false;
      recorded := false;
      lastQuorum := None;
      signal := Healthy;
      log := log + [NoteAckOk(history, watermark)];
    }

    /** Accepts only a recorded fault, after ten healthy seconds. */
    method Acknowledge(reasonGiven: bool, clock: Option<Reading>, committed: Option<nat>, written: bool) returns (ok: bool)
      requires Valid()
      modifies this
      ensures Valid()
      ensures var enabled := reasonGiven && old(faulted) && old(recorded) && clock.Some? && committed.Some?;
              View() == if enabled then Acknowledged(old(View()), clock.value, committed.value, written) else old(View())
      ensures ok <==> old(faulted) && !faulted
      ensures lastQuorum == if ok then None else old(lastQuorum)
      ensures ok <==> && reasonGiven && old(faulted) && old(recorded) && clock.Some? && committed.Some? && written
                      && exists i: nat :: Evidence(history, i, committed.value)
    {
      if !reasonGiven || !faulted || !recorded || clock.None? || committed.None? {
        return false;
      }
      ok := Confirm(clock.value, committed.value);
      ok := ok && written;
      if ok {
        Clear(committed.value);
      }
    }
  }
}
