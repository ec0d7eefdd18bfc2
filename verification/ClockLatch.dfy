/** The fault latch: monitor, stored flag and published signal, with a log of what happened. */
module ClockLatch {
  import opened Prelude
  import opened ClockCore

  datatype Signal = Healthy | Latched

  datatype Note =
    | NoteFault
    | NoteRecorded
    | NoteSampleOk(history: seq<Entry>)  // ends in the reading that was returned
    | NoteAckOk(history: seq<Entry>, watermark: nat)
    | NoteUnstored(history: seq<Entry>, watermark: nat)  // the flag was cleared for a call that was dropped meanwhile
    | NoteRestart(faulted: bool)

  /** `history` holds the observations of this process, `log` survives restarts. */
  datatype Core = Core(monitor: Monitor, stored: bool, signal: Signal, history: seq<Entry>, log: seq<Note>)

  // ----- transitions -----

  function SignalOf(faulted: bool): Signal {
    if faulted then Latched else Healthy
  }

  /** A new process finds only the stored flag. */
  function Restart(c: Core): Core {
    Core(Monitor(None, c.stored, c.stored, None), c.stored, SignalOf(c.stored), [], c.log + [NoteRestart(c.stored)])
  }

  /** The signal is sent only when the fault is new. */
  function Latch(c: Core, m: Monitor): Signal {
    if m.faulted && !c.monitor.faulted then Latched else c.signal
  }

  /** Reads the clocks and observes them, up to the point where a new fault must be recorded. */
  function BeginSample(c: Core, clock: Option<Reading>, watermark: nat): Core {
    match clock
    case None =>
      var m := ReadFailed(c.monitor);
      Core(m, c.stored, Latch(c, m), c.history + [Unreadable], c.log + [NoteFault])
    case Some(now) =>
      var m, fault := Observe(c.monitor, now, watermark), Faulty(c.monitor, now, watermark);
      Core(m, c.stored, Latch(c, m), c.history + [Seen(now, watermark, fault)], c.log + if fault then [NoteFault] else [])
  }

  predicate MustRecord(c: Core) {
    c.monitor.faulted && !c.monitor.recorded
  }

  /** A failed write leaves the stored flag as it was. */
  function EndRecord(c: Core, written: bool): Core
    requires MustRecord(c)
  {
    if written then c.(monitor := c.monitor.(recorded := true), stored := true, log := c.log + [NoteRecorded]) else c
  }

  /** The caller is gone before the write is known to be done: the monitor learns nothing of it. */
  function DropRecord(c: Core, written: bool): Core {
    if written then c.(stored := true, log := c.log + [NoteRecorded]) else c
  }

  function SampleOk(c: Core): Core
    requires !c.monitor.faulted
  {
    c.(log := c.log + [NoteSampleOk(c.history)])
  }

  /** The observation an acknowledgement makes itself. */
  function AckObserve(c: Core, now: Reading, watermark: nat): Core {
    var fault := Faulty(c.monitor, now, watermark);
    c.(monitor := Observe(c.monitor, now, watermark),
       history := c.history + [Seen(now, watermark, fault)],
       log := c.log + if fault then [NoteFault] else [])
  }

  function AckClear(c: Core, watermark: nat): Core {
    c.(monitor := c.monitor.(faulted := false, recorded := false), stored := false,
       log := c.log + [NoteAckOk(c.history, watermark)])
  }

  function DropClear(c: Core, watermark: nat, written: bool): Core {
    if written then c.(stored := false, log := c.log + [NoteUnstored(c.history, watermark)]) else c
  }

  // ----- what the log says -----

  /** No fault since the last acknowledgement or clean start. */
  ghost predicate Clean(log: seq<Note>)
    decreases |log|
  {
    if log == [] then
      true
    else
      match log[|log| - 1]
      case NoteFault => false
      case NoteAckOk(_, _) => true
      case NoteRestart(faulted) => !faulted
      case _ => Clean(log[..|log| - 1])
  }

  /** The stored flag: a fault was recorded, and no acknowledgement has cleared it since. */
  ghost predicate StoredOf(log: seq<Note>)
    decreases |log|
  {
    if log == [] then
      false
    else
      match log[|log| - 1]
      case NoteRecorded => true
      case NoteAckOk(_, _) => false
      case NoteUnstored(_, _) => false
      case _ => StoredOf(log[..|log| - 1])
  }

  /** The last observation is healthy, its marks are right, and whatever was wrong before has been acknowledged. */
  ghost predicate Trusted(history: seq<Entry>) {
    history != [] && ClockCore.Healthy(history[|history| - 1]) && WellMarked(history) && Redeemed(history)
  }

  ghost predicate NoteFits(log: seq<Note>, j: nat)
    requires j < |log|
  {
    match log[j]
    case NoteFault => true
    case NoteRecorded => !Clean(log[..j])
    case NoteSampleOk(history) => Clean(log[..j]) && Trusted(history)
    case NoteAckOk(history, watermark) => !Clean(log[..j]) && exists i: nat :: Evidence(history, i, watermark)
    case NoteUnstored(history, watermark) => !Clean(log[..j]) && exists i: nat :: Evidence(history, i, watermark)
    case NoteRestart(faulted) => faulted == StoredOf(log[..j])
  }

  /** Every note was lawful when it was made. */
  ghost predicate Lawful(log: seq<Note>) {
    forall j: nat :: j < |log| ==> NoteFits(log, j)
  }

  ghost predicate CoreInv(c: Core) {
    && c.monitor.faulted == !Clean(c.log)
    && c.stored == StoredOf(c.log)
    && (c.stored || c.monitor.recorded ==> c.monitor.faulted)
    && Remembers(c.monitor, c.history)
    && (!c.monitor.faulted ==> Redeemed(c.history))
    && Lawful(c.log)
  }

  lemma LawfulSnoc(log: seq<Note>, note: Note)
    requires Lawful(log) && NoteFits(log + [note], |log|)
    ensures Lawful(log + [note])
  {
    var log' := log + [note];
    forall j: nat | j < |log'|
      ensures NoteFits(log', j)
    {
      if j < |log| {
        assert log'[..j] == log[..j] && NoteFits(log, j);
      }
    }
  }

  lemma Snoc(log: seq<Note>, note: Note)
    ensures (log + [note])[..|log|] == log && (log + [note])[|log|] == note
  {
  }

  lemma BeginSampleInv(c: Core, clock: Option<Reading>, watermark: nat)
    requires CoreInv(c)
    ensures CoreInv(BeginSample(c, clock, watermark))
    ensures var c' := BeginSample(c, clock, watermark); c'.monitor.faulted ==> c.monitor.faulted || c'.signal == Latched
  {
    Snoc(c.log, NoteFault);
    LawfulSnoc(c.log, NoteFault);
    if clock.None? {
      MarkedSnoc(c.history, Unreadable);
    } else {
      ObserveRemembers(c.monitor, c.history, clock.value, watermark);
      if !Faulty(c.monitor, clock.value, watermark) && !c.monitor.faulted {
        RedeemedSnoc(c.history, Seen(clock.value, watermark, false));
      }
      assert c.log + [] == c.log;
    }
  }

  lemma EndRecordInv(c: Core, written: bool)
    requires CoreInv(c) && MustRecord(c)
    ensures CoreInv(EndRecord(c, written))
  {
    Snoc(c.log, NoteRecorded);
    LawfulSnoc(c.log, NoteRecorded);
  }

  lemma DropRecordInv(c: Core, written: bool)
    requires CoreInv(c) && MustRecord(c)
    ensures CoreInv(DropRecord(c, written))
  {
    Snoc(c.log, NoteRecorded);
    LawfulSnoc(c.log, NoteRecorded);
  }

  lemma SampleOkInv(c: Core)
    requires CoreInv(c) && !c.monitor.faulted && c.history != [] && ClockCore.Healthy(c.history[|c.history| - 1])
    ensures CoreInv(SampleOk(c))
  {
    Snoc(c.log, NoteSampleOk(c.history));
    LawfulSnoc(c.log, NoteSampleOk(c.history));
  }

  lemma RestartInv(c: Core)
    requires CoreInv(c)
    ensures CoreInv(Restart(c))
  {
    Snoc(c.log, NoteRestart(c.stored));
    LawfulSnoc(c.log, NoteRestart(c.stored));
  }

  lemma AckObserveInv(c: Core, now: Reading, watermark: nat)
    requires CoreInv(c) && c.monitor.faulted
    ensures CoreInv(AckObserve(c, now, watermark))
    ensures var c' := AckObserve(c, now, watermark);
            AckPasses(c'.monitor, now, watermark, Faulty(c.monitor, now, watermark)) ==> exists i: nat :: Evidence(c'.history, i, watermark)
  {
    Snoc(c.log, NoteFault);
    LawfulSnoc(c.log, NoteFault);
    ObserveRemembers(c.monitor, c.history, now, watermark);
    assert c.log + [] == c.log;
    if AckPasses(Observe(c.monitor, now, watermark), now, watermark, Faulty(c.monitor, now, watermark)) {
      AckIffEvidence(c.monitor, c.history, now, watermark);
    }
  }

  lemma AckClearInv(c: Core, watermark: nat)
    requires CoreInv(c) && c.monitor.faulted && exists i: nat :: Evidence(c.history, i, watermark)
    ensures CoreInv(AckClear(c, watermark))
  {
    var i: nat :| Evidence(c.history, i, watermark);
    EvidenceRedeems(c.history, i, watermark);
    Snoc(c.log, NoteAckOk(c.history, watermark));
    LawfulSnoc(c.log, NoteAckOk(c.history, watermark));
  }

  lemma DropClearInv(c: Core, watermark: nat, written: bool)
    requires CoreInv(c) && c.monitor.faulted && exists i: nat :: Evidence(c.history, i, watermark)
    ensures CoreInv(DropClear(c, watermark, written))
  {
    Snoc(c.log, NoteUnstored(c.history, watermark));
    LawfulSnoc(c.log, NoteUnstored(c.history, watermark));
  }

  // ----- the latch over whole logs -----

  ghost predicate Cleared(note: Note) {
    note.NoteAckOk? || note == NoteRestart(false)
  }

  lemma {:induction false} CleanMeans(log: seq<Note>, i: nat, j: nat)
    requires i < j <= |log| && log[i].NoteFault? && Clean(log[..j])
    ensures exists k: nat :: i < k < j && Cleared(log[k])
    decreases j
  {
    var last := log[..j][j - 1];
    assert last == log[j - 1] && log[..j][..j - 1] == log[..j - 1];
    if j - 1 == i {
    } else if !Cleared(log[j - 1]) {
      CleanMeans(log, i, j - 1);
    }
  }

  /** After a fault no sample succeeds before an acknowledgement or a restart that finds no stored fault. */
  lemma NoSuccessAfterFault(log: seq<Note>, i: nat, j: nat)
    requires Lawful(log) && i < j < |log| && log[i].NoteFault? && log[j].NoteSampleOk?
    ensures exists k: nat :: i < k < j && Cleared(log[k])
  {
    assert NoteFits(log, j);
    CleanMeans(log, i, j);
  }

  /** An acknowledgement cleared the stored flag, whether or not its caller was still there. */
  ghost predicate Released(note: Note) {
    note.NoteAckOk? || note.NoteUnstored?
  }

  lemma {:induction false} RecordedStays(log: seq<Note>, i: nat, j: nat)
    requires Lawful(log) && i < j <= |log| && log[i].NoteRecorded?
    requires forall k: nat :: i < k < j ==> !Released(log[k])
    ensures StoredOf(log[..j]) && !Clean(log[..j])
    decreases j
  {
    assert log[..j][j - 1] == log[j - 1] && log[..j][..j - 1] == log[..j - 1];
    assert NoteFits(log, j - 1);
    if i < j - 1 {
      RecordedStays(log, i, j - 1);
    }
  }

  /** A recorded fault outlives every restart: only an acknowledgement with evidence lets a sample succeed again. */
  lemma RecordedFaultSurvives(log: seq<Note>, i: nat, j: nat)
    requires Lawful(log) && i < j < |log| && log[i].NoteRecorded? && log[j].NoteSampleOk?
    ensures exists k: nat :: i < k < j && Released(log[k]) && exists n: nat :: Evidence(log[k].history, n, log[k].watermark)
  {
    assert NoteFits(log, j);
    if forall k: nat :: i < k < j ==> !Released(log[k]) {
      RecordedStays(log, i, j);
    } else {
      var k: nat :| i < k < j && Released(log[k]);
      assert NoteFits(log, k);
    }
  }
}
