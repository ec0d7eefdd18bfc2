/** The clock monitor: what one observation does, and when a fault may be acknowledged. */
module ClockCore {
  import opened Prelude

  const MAX_U64 := 0xFFFF_FFFF_FFFF_FFFF
  const WATCHDOG_MS := 2000
  const ACK_HEALTHY_MS := 10000
  const ACK_MARGIN_MS := 1000

  datatype Reading = Reading(wall: nat, boot: nat)

  datatype DeltaFault = BootReversed | WatchdogGap | WallBootSkew

  function SatAdd(a: nat, b: nat): nat {
    if a + b > MAX_U64 then MAX_U64 else a + b
  }

  function SatSub(a: nat, b: nat): nat {
    if a < b then 0 else a - b
  }

  function Abs(x: int): nat {
    if x < 0 then -x else x
  }

  /** Compares two consecutive readings. */
  function ClockDeltaFault(previous: Reading, now: Reading): Option<DeltaFault> {
    if now.boot < previous.boot then
      Some(BootReversed)
    else
      var elapsed := now.boot - previous.boot;
      if elapsed > WATCHDOG_MS then Some(WatchdogGap)
      else if Abs(now.wall - previous.wall - elapsed) > 250 + elapsed / 1000 then Some(WallBootSkew)
      else None
  }

  datatype Monitor = Monitor(previous: Option<Reading>, faulted: bool, recorded: bool, healthySince: Option<nat>)

  predicate Faulty(m: Monitor, now: Reading, watermark: nat) {
    || SatAdd(now.wall, 2000) < watermark
    || (m.previous.Some? && ClockDeltaFault(m.previous.value, now).Some?)
  }

  /** Boot time went back, was not read for over two seconds, or went another way than wall time, beyond 250 ms and one part in a thousand. */
  predicate OutOfStep(previous: Reading, now: Reading) {
    var wall, boot := now.wall - previous.wall, now.boot - previous.boot;
    boot < 0 || boot > 2000 || 1000 * (wall - boot - 250) > boot || 1000 * (boot - wall - 250) > boot
  }

  /** More than two seconds behind the watermark, or out of step with the reading before. */
  predicate Untrue(previous: Option<Reading>, now: Reading, watermark: nat) {
    || now.wall + 2000 < watermark || 0xFFFF_FFFF_FFFF_FFFF < watermark
    || (previous.Some? && OutOfStep(previous.value, now))
  }

  lemma DeltaFaultIff(previous: Reading, now: Reading)
    ensures ClockDeltaFault(previous, now).Some? <==> OutOfStep(previous, now)
    ensures now.boot < previous.boot <==> ClockDeltaFault(previous, now) == Some(BootReversed)
    ensures now.boot > previous.boot + 2000 <==> ClockDeltaFault(previous, now) == Some(WatchdogGap)
  {
    var elapsed := now.boot - previous.boot;
    var drift := Abs(now.wall - previous.wall - elapsed);
    assert elapsed >= 0 ==> 1000 * (elapsed / 1000) <= elapsed < 1000 * (elapsed / 1000) + 1000;
    assert elapsed >= 0 ==> (drift > 250 + elapsed / 1000 <==> 1000 * (drift - 250) > elapsed);
  }

  lemma FaultyIffUntrue(m: Monitor, now: Reading, watermark: nat)
    ensures Faulty(m, now, watermark) <==> Untrue(m.previous, now, watermark)
  {
    if m.previous.Some? {
      DeltaFaultIff(m.previous.value, now);
    }
  }

  function Observe(m: Monitor, now: Reading, watermark: nat): Monitor {
    if Faulty(m, now, watermark) then
      m.(previous := Some(now), faulted := true, healthySince := None)
    else
      m.(previous := Some(now), healthySince := Some(if m.healthySince.Some? then m.healthySince.value else now.boot))
  }

  function ReadFailed(m: Monitor): Monitor {
    m.(faulted := true, healthySince := None)
  }

  /** The test of an acknowledgement, after its own observation `now`. */
  predicate AckPasses(m: Monitor, now: Reading, watermark: nat, fault: bool) {
    && !fault
    && SatSub(now.boot, if m.healthySince.Some? then m.healthySince.value else now.boot) >= ACK_HEALTHY_MS
    && SatSub(now.wall, ACK_MARGIN_MS) >= watermark
  }

  // ----- the evidence behind an acknowledgement -----

  datatype Entry = Seen(reading: Reading, watermark: nat, fault: bool) | Unreadable

  /** From place `i` on, `history` holds only fault-free observations, each agreeing with the one before. */
  ghost predicate HealthyFrom(history: seq<Entry>, i: nat) {
    && i < |history|
    && (forall j :: i <= j < |history| ==> history[j].Seen? && !history[j].fault)
    && (forall j: nat :: i < j < |history| ==> Agrees(history, j))
  }

  /** The observation at place `j` shows no fault against the one before it. */
  ghost predicate Agrees(history: seq<Entry>, j: nat)
    requires 0 < j < |history|
  {
    && history[j - 1].Seen? && history[j].Seen?
    && !OutOfStep(history[j - 1].reading, history[j].reading)
  }

  predicate Healthy(e: Entry) {
    e.Seen? && !e.fault
  }

  /** The longest healthy stretch that reaches the present begins at place `i`. */
  ghost predicate StretchFrom(history: seq<Entry>, i: nat) {
    HealthyFrom(history, i) && (i == 0 || !Healthy(history[i - 1]))
  }

  /** The last reading that was seen; clocks that could not be read leave it as it is. */
  function LastSeen(history: seq<Entry>): Option<Reading>
    decreases |history|
  {
    if history == [] then None
    else if history[|history| - 1].Seen? then Some(history[|history| - 1].reading)
    else LastSeen(history[..|history| - 1])
  }

  ghost predicate Marked(history: seq<Entry>, j: nat)
    requires j < |history|
  {
    history[j].Seen? ==> (history[j].fault <==> Untrue(LastSeen(history[..j]), history[j].reading, history[j].watermark))
  }

  /** Exactly the untrue readings are marked as faults. */
  ghost predicate WellMarked(history: seq<Entry>) {
    forall j: nat :: j < |history| ==> Marked(history, j)
  }

  lemma MarkedSnoc(history: seq<Entry>, e: Entry)
    requires WellMarked(history)
    requires e.Seen? ==> (e.fault <==> Untrue(LastSeen(history), e.reading, e.watermark))
    ensures WellMarked(history + [e]) && LastSeen(history + [e]) == if e.Seen? then Some(e.reading) else LastSeen(history)
  {
    var history' := history + [e];
    assert history'[..|history|] == history;
    forall j: nat | j < |history'|
      ensures Marked(history', j)
    {
      if j < |history| {
        assert history'[..j] == history[..j] && Marked(history, j);
      }
    }
  }

  /** The monitor remembers the last reading and where the present healthy stretch began, if there is one. */
  ghost predicate Remembers(m: Monitor, history: seq<Entry>) {
    && m.previous == LastSeen(history) && WellMarked(history)
    && (m.healthySince.Some? <==> history != [] && Healthy(history[|history| - 1]))
    && (m.healthySince.Some? ==> exists i: nat :: StretchFrom(history, i) && history[i].reading.boot == m.healthySince.value)
  }

  lemma StretchGrows(history: seq<Entry>, i: nat, e: Entry)
    requires StretchFrom(history, i) && Healthy(e)
    requires !OutOfStep(history[|history| - 1].reading, e.reading)
    ensures StretchFrom(history + [e], i)
  {
    forall j: nat | i < j < |history + [e]|
      ensures Agrees(history + [e], j)
    {
      assert j < |history| ==> Agrees(history, j);
    }
  }

  lemma ObserveRemembers(m: Monitor, history: seq<Entry>, now: Reading, watermark: nat)
    requires Remembers(m, history)
    ensures Remembers(Observe(m, now, watermark), history + [Seen(now, watermark, Faulty(m, now, watermark))])
  {
    var e := Seen(now, watermark, Faulty(m, now, watermark));
    FaultyIffUntrue(m, now, watermark);
    MarkedSnoc(history, e);
    if !e.fault {
      if m.healthySince.Some? {
        var i: nat :| StretchFrom(history, i) && history[i].reading.boot == m.healthySince.value;
        StretchGrows(history, i, e);
        assert (history + [e])[i] == history[i];
      } else {
        assert StretchFrom(history + [e], |history|);
      }
    }
  }

  /**
   * Along a healthy stretch boot time never falls, consecutive readings are at most two
   * seconds apart, and wall and boot time stay within 252 ms per observation.
   */
  lemma {:induction false} HealthyStretch(history: seq<Entry>, i: nat, j: nat)
    requires HealthyFrom(history, i) && i <= j < |history|
    ensures history[i].reading.boot <= history[j].reading.boot <= history[i].reading.boot + 2000 * (j - i)
    ensures Abs((history[j].reading.wall - history[i].reading.wall) - (history[j].reading.boot - history[i].reading.boot)) <= 252 * (j - i)
    decreases j
  {
    if i < j {
      HealthyStretch(history, i, j - 1);
      assert Agrees(history, j);
    }
  }

  /** What a passed acknowledgement rests on. */
  ghost predicate Evidence(history: seq<Entry>, i: nat, watermark: nat) {
    && HealthyFrom(history, i)
    && var last := history[|history| - 1].reading;
       && last.boot - history[i].reading.boot >= 10000
       && |history| - i >= 6
       && (last.wall - 1000 >= watermark || watermark == 0)
  }

  /** Any stretch of evidence is part of the one the monitor remembers. */
  lemma EvidenceInStretch(history: seq<Entry>, i: nat, k: nat, watermark: nat)
    requires StretchFrom(history, i) && Evidence(history, k, watermark)
    ensures i <= k && history[|history| - 1].reading.boot - history[i].reading.boot >= 10000
  {
    assert k < i ==> Healthy(history[i - 1]);
    HealthyStretch(history, i, k);
  }

  /** An acknowledgement passes if and only if it ends at least ten seconds of at least six consecutive healthy observations. */
  lemma AckIffEvidence(m: Monitor, history: seq<Entry>, now: Reading, watermark: nat)
    requires Remembers(m, history)
    ensures var history' := history + [Seen(now, watermark, Faulty(m, now, watermark))];
            AckPasses(Observe(m, now, watermark), now, watermark, Faulty(m, now, watermark)) <==>
            exists i: nat :: Evidence(history', i, watermark)
  {
    var history' := history + [Seen(now, watermark, Faulty(m, now, watermark))];
    ObserveRemembers(m, history, now, watermark);
    var m' := Observe(m, now, watermark);
    if m'.healthySince.Some? {
      var i: nat :| StretchFrom(history', i) && history'[i].reading.boot == m'.healthySince.value;
      HealthyStretch(history', i, |history'| - 1);
      if AckPasses(m', now, watermark, false) {
        assert Evidence(history', i, watermark);
      }
      forall k: nat | Evidence(history', k, watermark)
        ensures AckPasses(m', now, watermark, false)
      {
        EvidenceInStretch(history', i, k, watermark);
      }
    }
  }

  // ----- what a success rests on -----

  /** Every unhealthy observation is followed by the evidence of an acknowledgement. */
  ghost predicate Redeemed(history: seq<Entry>) {
    forall i: nat :: i < |history| && !Healthy(history[i]) ==> RedeemedAt(history, i)
  }

  ghost predicate RedeemedAt(history: seq<Entry>, i: nat) {
    exists k: nat, n: nat, watermark: nat :: i < k <= |history| && Evidence(history[..k], n, watermark)
  }

  lemma RedeemedSnoc(history: seq<Entry>, e: Entry)
    requires Redeemed(history) && Healthy(e)
    ensures Redeemed(history + [e])
  {
    var history' := history + [e];
    forall i: nat | i < |history'| && !Healthy(history'[i])
      ensures RedeemedAt(history', i)
    {
      assert RedeemedAt(history, i);
      var k: nat, n: nat, watermark: nat :| i < k <= |history| && Evidence(history[..k], n, watermark);
      assert history'[..k] == history[..k];
    }
  }

  lemma EvidenceRedeems(history: seq<Entry>, n: nat, watermark: nat)
    requires Evidence(history, n, watermark)
    ensures Redeemed(history)
  {
    assert history[..|history|] == history;
  }
}
