/**
 * Interleavings of sampling, acknowledging and quorum calls over the two locks of the clock
 * authority, with failing writes, dropped calls, membership changes and crashes.
 */
module ClockRuns {
  import opened Prelude
  import opened ClockCore
  import opened ClockLatch
  import opened Quorum

  const QUORUM_REFRESH_MS := 5000
  const QUORUM_EXPIRY_MS := 10000

  /** Where a task stands; the comments name the locks it holds there. */
  datatype Task =
    | Idle
    | Recording                                                          // monitor
    | RecordingSecond                                                    // monitor, cache
    | RecordingFirst                                                     // monitor
    | GotBefore(allow: bool, before: nat, tag: nat)
    | GotMembers(allow: bool, before: nat, members: Members)
    | Probed(allow: bool, members: Members, healthy: set<nat>)           // cache
    | GotAfter(allow: bool, members: Members, healthy: set<nat>, after: nat, tag: nat)  // cache
    | AckStoring(watermark: nat)                                         // monitor
    | AckClearing                                                        // monitor

  datatype Kind = Single | Fresh | Cached(limit: nat)

  /**
   * A quorum handed to a caller, with the caller's own reading and the monitor's state at that moment.
   * `current`: no acknowledgement has cleared the monitor since the quorum's reading was taken.
   */
  datatype Answer = Answer(kind: Kind, quorum: VoterQuorum, members: Members, boot: nat,
                           current: bool, faulted: bool, unfinished: bool, lastBoot: Option<nat>)

  datatype State = State(
    core: Core,
    cache: Option<VoterQuorum>,
    tag: nat,  // how often the monitor had been cleared when the cached quorum was sampled
    monitorHolder: Option<nat>,
    cacheHolder: Option<nat>,
    tasks: map<nat, Task>,
    members: Members,
    local: nat,
    clears: nat,  // how often an acknowledgement has cleared the monitor
    unfinished: bool,  // an acknowledgement has cleared the monitor, and none has finished since
    answers: seq<Answer>)

  datatype Event =
    | Sample(task: nat, clock: Option<Reading>, watermark: nat)
    | FirstSample(task: nat, allow: bool, clock: Option<Reading>, watermark: nat)
    | Record(task: nat, written: bool)
    | ReadMembers(task: nat)
    | TakeCache(task: nat, rosterAgrees: bool, responding: set<nat>)
    | SecondSample(task: nat, clock: Option<Reading>, watermark: nat)
    | Conclude(task: nat)
    | Acknowledge(task: nat, reasonGiven: bool, clock: Option<Reading>, committed: Option<nat>)
    | AckStore(task: nat, written: bool)
    | AckFinish(task: nat)
    | Dropped(task: nat, written: bool)  // the caller goes away; a write under way may still be done
    | ChangeMembers(members: Members)
    | Crash

  function TaskOf(s: State, t: nat): Task {
    if t in s.tasks then s.tasks[t] else Idle
  }

  function Put(s: State, t: nat, task: Task): State {
    s.(tasks := s.tasks[t := task])
  }

  /** The monitor is not faulted, and no acknowledgement was left halfway through. */
  predicate Settled(s: State) {
    !s.core.monitor.faulted && !s.unfinished
  }

  function LastBoot(s: State): Option<nat> {
    if s.core.monitor.previous.Some? then Some(s.core.monitor.previous.value.boot) else None
  }

  function Reply(s: State, t: nat, kind: Kind, q: VoterQuorum, tag: nat, members: Members, boot: nat): State {
    Put(s, t, Idle).(answers := s.answers + [Given(s, kind, q, tag, members, boot)])
  }

  function Given(s: State, kind: Kind, q: VoterQuorum, tag: nat, members: Members, boot: nat): Answer {
    Answer(kind, q, members, boot, tag == s.clears, s.core.monitor.faulted, s.unfinished, LastBoot(s))
  }

  // ----- steps -----

  /**
   * A sample by `t`: it takes the monitor lock, and keeps it in `recording` while a new fault
   * is written; otherwise it goes on at `next` or gives up.
   */
  function SampleBy(s: State, t: nat, clock: Option<Reading>, watermark: nat, recording: Task, next: Task): State {
    var c := BeginSample(s.core, clock, watermark);
    if MustRecord(c) then
      Put(s, t, recording).(core := c, monitorHolder := Some(t))
    else if c.monitor.faulted || clock.None? then
      GiveUp(s.(core := c), t)
    else
      Put(s, t, next).(core := SampleOk(c))
  }

  function BootOf(clock: Option<Reading>): nat {
    if clock.Some? then clock.value.boot else 0
  }

  /** Ends a call; it releases the cache lock if it holds it. */
  function GiveUp(s: State, t: nat): State {
    Put(s, t, Idle).(cacheHolder := if s.cacheHolder == Some(t) then None else s.cacheHolder)
  }

  predicate Usable(cache: Option<VoterQuorum>, members: Members, boot: nat, limit: nat) {
    cache.Some? && cache.value.members == members && SatSub(boot, cache.value.checkedBoot) < limit
  }

  function StepReadMembers(s: State, t: nat, task: Task): State
    requires task.GotBefore?
  {
    if s.members.configs == [] || VotersOf(s.members) == {} then
      Put(s, t, Idle)
    else if |VotersOf(s.members)| == 1 then
      if JointQuorum(s.members.configs, {s.local}) then
        Reply(s, t, Single, VoterQuorum(s.members, {s.local}, task.before), task.tag, s.members, task.before)
      else
        Put(s, t, Idle)
    else
      Put(s, t, GotMembers(task.allow, task.before, s.members))
  }

  /**
   * With the cache lock: answer from the cache, or probe the voters while keeping it.
   * `responding` are the voters that were probed and answered before the loop stopped.
   */
  function StepTakeCache(s: State, t: nat, task: Task, rosterAgrees: bool, responding: set<nat>): State
    requires task.GotMembers?
  {
    if task.allow && Usable(s.cache, task.members, task.before, QUORUM_REFRESH_MS) then
      Reply(s, t, Cached(QUORUM_REFRESH_MS), s.cache.value, s.tag, task.members, task.before)
    else if !rosterAgrees || s.local !in VotersOf(task.members) then
      Put(s, t, Idle)
    else
      Put(s, t, Probed(task.allow, task.members, FullRound(VotersOf(task.members), s.local, responding)))
        .(cacheHolder := Some(t))
  }

  function StepConclude(s: State, t: nat, task: Task): State
    requires task.GotAfter?
  {
    var q := VoterQuorum(task.members, task.healthy, task.after);
    if s.members != task.members then
      GiveUp(s, t)
    else if JointQuorum(task.members.configs, task.healthy) then
      Reply(s, t, Fresh, q, task.tag, task.members, task.after).(cache := Some(q), tag := task.tag, cacheHolder := None)
    else if task.allow && Usable(s.cache, task.members, task.after, QUORUM_EXPIRY_MS) then
      Reply(s, t, Cached(QUORUM_EXPIRY_MS), s.cache.value, s.tag, task.members, task.after).(cacheHolder := None)
    else
      GiveUp(s, t)
  }

  function StepAcknowledge(s: State, t: nat, reasonGiven: bool, clock: Option<Reading>, watermark: Option<nat>): State {
    if !reasonGiven || !s.core.monitor.faulted || !s.core.monitor.recorded || clock.None? || watermark.None? then
      s
    else
      var c := AckObserve(s.core, clock.value, watermark.value);
      if AckPasses(c.monitor, clock.value, watermark.value, Faulty(s.core.monitor, clock.value, watermark.value)) then
        Put(s, t, AckStoring(watermark.value)).(core := c, monitorHolder := Some(t))
      else
        s.(core := c)
  }

  /** The places where a call waits: for a lock, for a write, or for the probes. */
  predicate Awaits(task: Task) {
    !task.Idle? && !task.GotBefore? && !task.GotAfter?
  }

  /** A dropped call releases its locks where it stands and does none of what was still to come. */
  function StepDropped(s: State, t: nat, task: Task, written: bool): State {
    var core :=
      match task
      case Recording => DropRecord(s.core, written)
      case RecordingFirst => DropRecord(s.core, written)
      case RecordingSecond => DropRecord(s.core, written)
      case AckStoring(watermark) => DropClear(s.core, watermark, written)
      case _ => s.core;
    GiveUp(s.(core := core, monitorHolder := if s.monitorHolder == Some(t) then None else s.monitorHolder), t)
  }

  /** An event that is not enabled changes nothing. */
  function Step(s: State, e: Event): State {
    match e
    case Sample(t, clock, watermark) =>
      if TaskOf(s, t).Idle? && s.monitorHolder.None? then SampleBy(s, t, clock, watermark, Recording, Idle) else s
    case FirstSample(t, allow, clock, watermark) =>
      if TaskOf(s, t).Idle? && s.monitorHolder.None? then
        SampleBy(s, t, clock, watermark, RecordingFirst, GotBefore(allow, BootOf(clock), s.clears))
      else s
    case SecondSample(t, clock, watermark) =>
      var task := TaskOf(s, t);
      if task.Probed? && s.monitorHolder.None? then
        SampleBy(s, t, clock, watermark, RecordingSecond, GotAfter(task.allow, task.members, task.healthy, BootOf(clock), s.clears))
      else s
    case Record(t, written) =>
      var task := TaskOf(s, t);
      if (task.Recording? || task.RecordingFirst? || task.RecordingSecond?) && MustRecord(s.core) then
        GiveUp(s.(core := EndRecord(s.core, written), monitorHolder := None), t)
      else s
    case ReadMembers(t) => if TaskOf(s, t).GotBefore? then StepReadMembers(s, t, TaskOf(s, t)) else s
    case TakeCache(t, rosterAgrees, responding) =>
      if TaskOf(s, t).GotMembers? && s.cacheHolder.None? then StepTakeCache(s, t, TaskOf(s, t), rosterAgrees, responding) else s
    case Conclude(t) => if TaskOf(s, t).GotAfter? then StepConclude(s, t, TaskOf(s, t)) else s
    case Acknowledge(t, reasonGiven, clock, watermark) =>
      if TaskOf(s, t).Idle? && s.monitorHolder.None? then StepAcknowledge(s, t, reasonGiven, clock, watermark) else s
    case AckStore(t, written) =>
      if TaskOf(s, t).AckStoring? then
        if written then
          Put(s, t, AckClearing).(core := AckClear(s.core, TaskOf(s, t).watermark), clears := s.clears + 1, unfinished := true)
        else
          Put(s, t, Idle).(monitorHolder := None)
      else s
    case AckFinish(t) =>
      if TaskOf(s, t).AckClearing? && s.cacheHolder.None? then
        Put(s, t, Idle).(core := s.core.(signal := Healthy), cache := None, monitorHolder := None, unfinished := false)
      else s
    case Dropped(t, written) => if Awaits(TaskOf(s, t)) then StepDropped(s, t, TaskOf(s, t), written) else s
    case ChangeMembers(members) => s.(members := members)
    case Crash => State(Restart(s.core), None, 0, None, None, map[], s.members, s.local, s.clears, false, s.answers)
  }

  function Start(stored: bool, members: Members, local: nat): State {
    State(Core(Monitor(None, stored, stored, None), stored, SignalOf(stored), [], if stored then [NoteFault, NoteRecorded] else []),
          None, 0, None, None, map[], members, local, 0, false, [])
  }

  function Run(s: State, events: seq<Event>): State
    decreases |events|
  {
    if events == [] then s else Step(Run(s, events[..|events| - 1]), events[|events| - 1])
  }

  // ----- the invariant -----

  predicate HoldsMonitor(task: Task) {
    task.Recording? || task.RecordingFirst? || task.RecordingSecond? || task.AckStoring? || task.AckClearing?
  }

  predicate HoldsCache(task: Task) {
    task.RecordingSecond? || task.Probed? || task.GotAfter?
  }

  /** The monitor has observed this boot time or a later one. */
  predicate BootSeen(c: Core, boot: nat) {
    c.monitor.previous.Some? && boot <= c.monitor.previous.value.boot
  }

  predicate RealQuorum(q: VoterQuorum) {
    JointQuorum(q.members.configs, q.sampled) && q.sampled <= VotersOf(q.members)
  }

  /** A reading taken when the monitor had been cleared `tag` times; without a clearing since, it is not ahead. */
  ghost predicate Tagged(s: State, tag: nat, boot: nat) {
    tag <= s.clears && (tag == s.clears && !s.core.monitor.faulted ==> BootSeen(s.core, boot))
  }

  ghost predicate TaskOk(s: State, t: nat, task: Task) {
    && (HoldsMonitor(task) ==> s.monitorHolder == Some(t))
    && (HoldsCache(task) ==> s.cacheHolder == Some(t))
    && (task.Recording? || task.RecordingFirst? || task.RecordingSecond? ==> MustRecord(s.core))
    && (task.AckStoring? ==> s.core.monitor.faulted && exists i: nat :: Evidence(s.core.history, i, task.watermark))
    && (task.AckClearing? ==> !s.core.monitor.faulted && s.unfinished)
    && (task.Probed? || task.GotAfter? ==> task.healthy <= VotersOf(task.members))
    && (task.GotBefore? ==> Tagged(s, task.tag, task.before))
    && (task.GotAfter? ==> Tagged(s, task.tag, task.after) && (s.unfinished || task.tag == s.clears))
  }

  ghost predicate TasksOk(s: State) {
    forall t: nat :: TaskOk(s, t, TaskOf(s, t))
  }

  /** Each lock is held only by a task that is inside it. */
  ghost predicate HolderOk(s: State) {
    && (s.monitorHolder.Some? ==> HoldsMonitor(TaskOf(s, s.monitorHolder.value)))
    && (s.cacheHolder.Some? ==> HoldsCache(TaskOf(s, s.cacheHolder.value)))
  }

  /** The published signal: latched while the monitor is faulted, and until an acknowledgement has finished. */
  ghost predicate SignalOk(s: State) {
    s.core.signal == SignalOf(!Settled(s))
  }

  ghost predicate CacheOk(s: State) {
    s.cache.Some? ==>
      && RealQuorum(s.cache.value) && Tagged(s, s.tag, s.cache.value.checkedBoot)
      && (s.unfinished || s.tag == s.clears)
  }

  /** What every answer satisfies, whatever ran in between. */
  ghost predicate AnswerOk(a: Answer) {
    && RealQuorum(a.quorum) && a.quorum.members == a.members
    && (match a.kind
        case Single => a.quorum.checkedBoot == a.boot
        case Fresh => a.quorum.checkedBoot == a.boot
        case Cached(limit) => limit <= 10000 && a.boot < a.quorum.checkedBoot + limit)
    && (a.current && !a.faulted ==> a.lastBoot.Some? && a.quorum.checkedBoot <= a.lastBoot.value)
    && (a.kind.Single? || a.unfinished || a.current)
  }

  ghost predicate AnswersOk(s: State) {
    forall i :: 0 <= i < |s.answers| ==> AnswerOk(s.answers[i])
  }

  ghost predicate Inv(s: State) {
    CoreInv(s.core) && TasksOk(s) && HolderOk(s) && SignalOk(s) && CacheOk(s) && AnswersOk(s)
  }

  lemma StartInv(stored: bool, members: Members, local: nat)
    ensures Inv(Start(stored, members, local))
  {
    var log := Start(stored, members, local).core.log;
    if stored {
      assert log[..1] == [NoteFault];
      forall j: nat | j < |log|
        ensures NoteFits(log, j)
      {
      }
    }
  }

  // ----- samples -----

  lemma SampleSignal(c: Core, clock: Option<Reading>, watermark: nat, unfinished: bool)
    requires c.signal == SignalOf(c.monitor.faulted || unfinished)
    ensures var c' := BeginSample(c, clock, watermark);
            c'.signal == SignalOf(c'.monitor.faulted || unfinished) && (c.monitor.faulted ==> c'.monitor.faulted)
  {
  }

  /** Other tasks are not disturbed by a sample: none of them is inside the monitor. */
  lemma OthersOk(s: State, s': State, u: nat)
    requires TasksOk(s) && s.monitorHolder.None? && TaskOf(s', u) == TaskOf(s, u)
    requires HoldsCache(TaskOf(s, u)) ==> s'.cacheHolder == s.cacheHolder
    requires s'.clears == s.clears && s'.unfinished == s.unfinished
    requires !s'.core.monitor.faulted ==> !s.core.monitor.faulted && forall boot :: BootSeen(s.core, boot) ==> BootSeen(s'.core, boot)
    ensures TaskOk(s', u, TaskOf(s', u))
  {
    assert TaskOk(s, u, TaskOf(s, u));
  }

  lemma SampleSeen(s: State, clock: Option<Reading>, watermark: nat)
    ensures var c := BeginSample(s.core, clock, watermark);
            !c.monitor.faulted ==> !s.core.monitor.faulted && forall boot :: BootSeen(s.core, boot) ==> BootSeen(c, boot)
  {
  }

  ghost predicate Continues(s: State, t: nat, clock: Option<Reading>, recording: Task, next: Task) {
    && (recording.Recording? || recording.RecordingFirst? || recording.RecordingSecond?)
    && (HoldsCache(recording) <==> s.cacheHolder == Some(t))
    && (next.Idle? || next.GotBefore? || next.GotAfter?)
    && (next.GotAfter? <==> s.cacheHolder == Some(t))
    && (next.GotBefore? ==> next.before == BootOf(clock) && next.tag == s.clears)
    && (next.GotAfter? ==> next.after == BootOf(clock) && next.tag == s.clears && next.healthy <= VotersOf(next.members))
  }

  lemma SampleOkCore(c: Core, clock: Option<Reading>, watermark: nat)
    requires CoreInv(c)
    ensures var c' := BeginSample(c, clock, watermark);
            CoreInv(c') && (!c'.monitor.faulted && clock.Some? ==> CoreInv(SampleOk(c')))
  {
    var c' := BeginSample(c, clock, watermark);
    BeginSampleInv(c, clock, watermark);
    if !c'.monitor.faulted && clock.Some? {
      SampleOkInv(c');
    }
  }

  lemma SampleByCore(s: State, t: nat, clock: Option<Reading>, watermark: nat, recording: Task, next: Task)
    requires CoreInv(s.core)
    ensures CoreInv(SampleBy(s, t, clock, watermark, recording, next).core)
  {
    SampleOkCore(s.core, clock, watermark);
  }

  /** A sample changes nothing but the core, the locks and the task. */
  lemma SampleByFrame(s: State, t: nat, clock: Option<Reading>, watermark: nat, recording: Task, next: Task, c: Core)
    requires c == BeginSample(s.core, clock, watermark)
    ensures var s' := SampleBy(s, t, clock, watermark, recording, next);
            s'.core.monitor == c.monitor && s'.core.signal == c.signal && s'.unfinished == s.unfinished && s'.answers == s.answers
  {
  }

  lemma SampleBySignal(s: State, t: nat, clock: Option<Reading>, watermark: nat, recording: Task, next: Task)
    requires SignalOk(s)
    ensures var s' := SampleBy(s, t, clock, watermark, recording, next); SignalOk(s') && s'.answers == s.answers
  {
    SampleByFrame(s, t, clock, watermark, recording, next, BeginSample(s.core, clock, watermark));
    SampleSignal(s.core, clock, watermark, s.unfinished);
  }

  lemma SampleByCache(s: State, t: nat, clock: Option<Reading>, watermark: nat, recording: Task, next: Task)
    requires CacheOk(s)
    ensures CacheOk(SampleBy(s, t, clock, watermark, recording, next))
  {
    SampleSeen(s, clock, watermark);
  }

  lemma SampleByHolders(s: State, t: nat, clock: Option<Reading>, watermark: nat, recording: Task, next: Task)
    requires HolderOk(s) && s.monitorHolder.None? && Continues(s, t, clock, recording, next)
    ensures HolderOk(SampleBy(s, t, clock, watermark, recording, next))
  {
  }

  lemma SampleByTasks(s: State, t: nat, clock: Option<Reading>, watermark: nat, recording: Task, next: Task, u: nat)
    requires Inv(s) && s.monitorHolder.None? && Continues(s, t, clock, recording, next)
    ensures var s' := SampleBy(s, t, clock, watermark, recording, next); TaskOk(s', u, TaskOf(s', u))
  {
    var s' := SampleBy(s, t, clock, watermark, recording, next);
    SampleSeen(s, clock, watermark);
    if u != t {
      assert TaskOk(s, u, TaskOf(s, u));
      OthersOk(s, s', u);
    }
  }

  lemma SampleByInv(s: State, t: nat, clock: Option<Reading>, watermark: nat, recording: Task, next: Task)
    requires Inv(s) && s.monitorHolder.None? && Continues(s, t, clock, recording, next)
    ensures Inv(SampleBy(s, t, clock, watermark, recording, next))
  {
    SampleByCore(s, t, clock, watermark, recording, next);
    SampleBySignal(s, t, clock, watermark, recording, next);
    SampleByCache(s, t, clock, watermark, recording, next);
    SampleByHolders(s, t, clock, watermark, recording, next);
    var s' := SampleBy(s, t, clock, watermark, recording, next);
    forall u: nat
      ensures TaskOk(s', u, TaskOf(s', u))
    {
      SampleByTasks(s, t, clock, watermark, recording, next, u);
    }
  }

  /** A step of `t` inside the monitor that leaves it faulted does not disturb the other tasks. */
  lemma TasksBesideFault(s: State, s': State, t: nat)
    requires TasksOk(s) && (s.monitorHolder.None? || s.monitorHolder == Some(t)) && s'.core.monitor.faulted
    requires s'.clears == s.clears && s'.unfinished == s.unfinished && TaskOk(s', t, TaskOf(s', t))
    requires forall u: nat :: u != t ==> TaskOf(s', u) == TaskOf(s, u)
    requires s'.cacheHolder == s.cacheHolder || s.cacheHolder == Some(t)
    ensures TasksOk(s')
  {
    forall u: nat
      ensures TaskOk(s', u, TaskOf(s', u))
    {
      assert TaskOk(s, u, TaskOf(s, u));
    }
  }

  lemma RecordInv(s: State, t: nat, written: bool)
    requires Inv(s)
    ensures Inv(Step(s, Record(t, written)))
  {
    var task := TaskOf(s, t);
    if (task.Recording? || task.RecordingFirst? || task.RecordingSecond?) && MustRecord(s.core) {
      assert TaskOk(s, t, task);
      EndRecordInv(s.core, written);
      TasksBesideFault(s, Step(s, Record(t, written)), t);
    }
  }

  // ----- quorum calls -----

  lemma ReplyAnswers(s: State, t: nat, kind: Kind, q: VoterQuorum, tag: nat, members: Members, boot: nat)
    requires AnswersOk(s) && AnswerOk(Given(s, kind, q, tag, members, boot))
    ensures AnswersOk(Reply(s, t, kind, q, tag, members, boot))
  {
  }

  lemma ReadMembersAnswers(s: State, t: nat, task: Task)
    requires Inv(s) && task == TaskOf(s, t) && task.GotBefore?
    ensures AnswersOk(StepReadMembers(s, t, task)) && CacheOk(StepReadMembers(s, t, task))
  {
    assert TaskOk(s, t, task);
    if |VotersOf(s.members)| == 1 && JointQuorum(s.members.configs, {s.local}) {
      SingleVoterQuorum(s.members.configs, s.local);
      ReplyAnswers(s, t, Single, VoterQuorum(s.members, {s.local}, task.before), task.tag, s.members, task.before);
    }
  }

  lemma ReadMembersFrame(s: State, t: nat, task: Task)
    requires task.GotBefore?
    ensures var s' := StepReadMembers(s, t, task);
            && s'.core == s.core && s'.monitorHolder == s.monitorHolder && s'.cacheHolder == s.cacheHolder && s'.unfinished == s.unfinished && s'.clears == s.clears
            && (TaskOf(s', t).Idle? || TaskOf(s', t).GotMembers?) && forall u: nat :: u != t ==> TaskOf(s', u) == TaskOf(s, u)
  {
  }

  lemma ReadMembersInv(s: State, t: nat)
    requires Inv(s)
    ensures Inv(Step(s, ReadMembers(t)))
  {
    var task := TaskOf(s, t);
    if task.GotBefore? {
      var s' := StepReadMembers(s, t, task);
      assert TaskOk(s, t, task);
      ReadMembersAnswers(s, t, task);
      ReadMembersFrame(s, t, task);
      OtherTasks(s, s', t);
    }
  }

  /** A step of `t` outside the monitor leaves all other tasks as they were. */
  lemma OtherTasks(s: State, s': State, t: nat)
    requires TasksOk(s) && s'.core == s.core && s'.monitorHolder == s.monitorHolder
    requires s'.clears == s.clears && s'.unfinished == s.unfinished
    requires forall u: nat :: u != t ==> TaskOf(s', u) == TaskOf(s, u)
    requires forall u: nat :: u != t && HoldsCache(TaskOf(s, u)) ==> s'.cacheHolder == s.cacheHolder
    requires TaskOk(s', t, TaskOf(s', t))
    ensures TasksOk(s')
  {
    forall u: nat
      ensures TaskOk(s', u, TaskOf(s', u))
    {
      assert TaskOk(s, u, TaskOf(s, u));
    }
  }

  lemma TakeCacheAnswers(s: State, t: nat, task: Task, rosterAgrees: bool, responding: set<nat>)
    requires Inv(s) && task == TaskOf(s, t) && task.GotMembers?
    ensures var s' := StepTakeCache(s, t, task, rosterAgrees, responding); AnswersOk(s') && CacheOk(s')
  {
    if task.allow && Usable(s.cache, task.members, task.before, QUORUM_REFRESH_MS) {
      ReplyAnswers(s, t, Cached(QUORUM_REFRESH_MS), s.cache.value, s.tag, task.members, task.before);
    }
  }

  lemma TakeCacheFrame(s: State, t: nat, task: Task, rosterAgrees: bool, responding: set<nat>)
    requires task.GotMembers?
    ensures var s' := StepTakeCache(s, t, task, rosterAgrees, responding);
            && s'.core == s.core && s'.monitorHolder == s.monitorHolder && s'.unfinished == s.unfinished && s'.clears == s.clears
            && forall u: nat :: u != t ==> TaskOf(s', u) == TaskOf(s, u)
  {
  }

  lemma TakeCacheTask(s: State, t: nat, task: Task, rosterAgrees: bool, responding: set<nat>)
    requires task.GotMembers? && s.cacheHolder.None?
    ensures var s' := StepTakeCache(s, t, task, rosterAgrees, responding); var after := TaskOf(s', t);
            && (after.Idle? || after.Probed?) && (after.Probed? <==> s'.cacheHolder == Some(t)) && (after.Idle? <==> s'.cacheHolder.None?)
            && (after.Probed? ==> after.healthy <= VotersOf(after.members))
  {
  }

  lemma NoHolder(s: State)
    requires Inv(s) && s.cacheHolder.None?
    ensures forall u: nat :: !HoldsCache(TaskOf(s, u))
  {
    forall u: nat
      ensures !HoldsCache(TaskOf(s, u))
    {
      assert TaskOk(s, u, TaskOf(s, u));
    }
  }

  lemma TakeCacheInv(s: State, t: nat, rosterAgrees: bool, responding: set<nat>)
    requires Inv(s)
    ensures Inv(Step(s, TakeCache(t, rosterAgrees, responding)))
  {
    var task := TaskOf(s, t);
    if task.GotMembers? && s.cacheHolder.None? {
      TakeCacheAnswers(s, t, task, rosterAgrees, responding);
      TakeCacheFrame(s, t, task, rosterAgrees, responding);
      TakeCacheTask(s, t, task, rosterAgrees, responding);
      NoHolder(s);
      assert TaskOk(s, t, task);
      OtherTasks(s, StepTakeCache(s, t, task, rosterAgrees, responding), t);
    }
  }

  lemma ConcludeAnswers(s: State, t: nat, task: Task)
    requires Inv(s) && task == TaskOf(s, t) && task.GotAfter?
    ensures AnswersOk(StepConclude(s, t, task)) && CacheOk(StepConclude(s, t, task))
  {
    assert TaskOk(s, t, task);
    var q := VoterQuorum(task.members, task.healthy, task.after);
    if s.members == task.members {
      if JointQuorum(task.members.configs, task.healthy) {
        ReplyAnswers(s, t, Fresh, q, task.tag, task.members, task.after);
      } else if task.allow && Usable(s.cache, task.members, task.after, QUORUM_EXPIRY_MS) {
        ReplyAnswers(s, t, Cached(QUORUM_EXPIRY_MS), s.cache.value, s.tag, task.members, task.after);
      }
    }
  }

  lemma OnlyHolder(s: State, t: nat)
    requires Inv(s) && HoldsCache(TaskOf(s, t))
    ensures forall u: nat :: u != t ==> !HoldsCache(TaskOf(s, u))
  {
    assert TaskOk(s, t, TaskOf(s, t));
    forall u: nat | u != t
      ensures !HoldsCache(TaskOf(s, u))
    {
      assert TaskOk(s, u, TaskOf(s, u));
    }
  }

  lemma ConcludeFrame(s: State, t: nat, task: Task)
    requires task.GotAfter? && s.monitorHolder != Some(t) && s.cacheHolder == Some(t)
    ensures var s' := StepConclude(s, t, task);
            && s'.core == s.core && s'.monitorHolder == s.monitorHolder && s'.cacheHolder.None? && TaskOf(s', t).Idle?
            && s'.unfinished == s.unfinished && s'.clears == s.clears
            && forall u: nat :: u != t ==> TaskOf(s', u) == TaskOf(s, u)
  {
  }

  lemma ConcludeTasks(s: State, t: nat, task: Task)
    requires Inv(s) && task == TaskOf(s, t) && task.GotAfter? && s.monitorHolder != Some(t)
    ensures TasksOk(StepConclude(s, t, task))
  {
    assert TaskOk(s, t, task);
    ConcludeFrame(s, t, task);
    OnlyHolder(s, t);
    OtherTasks(s, StepConclude(s, t, task), t);
  }

  lemma ConcludeInv(s: State, t: nat)
    requires Inv(s)
    ensures Inv(Step(s, Conclude(t)))
  {
    var task := TaskOf(s, t);
    if task.GotAfter? {
      assert TaskOk(s, t, task);
      ConcludeFrame(s, t, task);
      ConcludeTasks(s, t, task);
      ConcludeAnswers(s, t, task);
    }
  }

  // ----- acknowledgements -----

  lemma AcknowledgeTasks(s: State, t: nat, now: Reading, watermark: nat)
    requires Inv(s) && TaskOf(s, t).Idle? && s.monitorHolder.None? && s.core.monitor.faulted && s.core.monitor.recorded
    ensures TasksOk(StepAcknowledge(s, t, true, Some(now), Some(watermark)))
  {
    AckObserveInv(s.core, now, watermark);
    TasksBesideFault(s, StepAcknowledge(s, t, true, Some(now), Some(watermark)), t);
  }

  lemma AcknowledgeInv(s: State, t: nat, reasonGiven: bool, clock: Option<Reading>, committed: Option<nat>)
    requires Inv(s)
    ensures Inv(Step(s, Acknowledge(t, reasonGiven, clock, committed)))
  {
    if TaskOf(s, t).Idle? && s.monitorHolder.None? && reasonGiven && s.core.monitor.faulted && s.core.monitor.recorded &&
       clock.Some? && committed.Some? {
      AckObserveInv(s.core, clock.value, committed.value);
      AcknowledgeTasks(s, t, clock.value, committed.value);
    }
  }

  lemma AckStoreInv(s: State, t: nat, written: bool)
    requires Inv(s)
    ensures Inv(Step(s, AckStore(t, written)))
  {
    var task, s' := TaskOf(s, t), Step(s, AckStore(t, written));
    if task.AckStoring? {
      assert TaskOk(s, t, task);
      AckClearInv(s.core, task.watermark);
      forall u: nat
        ensures TaskOk(s', u, TaskOf(s', u))
      {
        assert TaskOk(s, u, TaskOf(s, u));
      }
    }
  }

  lemma AckFinishInv(s: State, t: nat)
    requires Inv(s)
    ensures Inv(Step(s, AckFinish(t)))
  {
    var task, s' := TaskOf(s, t), Step(s, AckFinish(t));
    if task.AckClearing? && s.cacheHolder.None? {
      assert TaskOk(s, t, task);
      forall u: nat
        ensures TaskOk(s', u, TaskOf(s', u))
      {
        assert TaskOk(s, u, TaskOf(s, u));
      }
    }
  }

  lemma DroppedCore(s: State, t: nat, task: Task, written: bool)
    requires Inv(s) && task == TaskOf(s, t)
    ensures var s' := StepDropped(s, t, task, written);
            && CoreInv(s'.core) && s'.core.monitor == s.core.monitor && s'.core.signal == s.core.signal
            && s'.core.history == s.core.history
  {
    assert TaskOk(s, t, task);
    match task
    case AckStoring(watermark) => DropClearInv(s.core, watermark, written);
    case Recording => DropRecordInv(s.core, written);
    case RecordingFirst => DropRecordInv(s.core, written);
    case RecordingSecond => DropRecordInv(s.core, written);
    case _ =>
  }

  lemma DroppedInv(s: State, t: nat, written: bool)
    requires Inv(s)
    ensures Inv(Step(s, Dropped(t, written)))
  {
    var task, s' := TaskOf(s, t), Step(s, Dropped(t, written));
    if Awaits(task) {
      DroppedCore(s, t, task, written);
      forall u: nat
        ensures TaskOk(s', u, TaskOf(s', u))
      {
        assert TaskOk(s, u, TaskOf(s, u));
      }
    }
  }

  lemma CrashInv(s: State)
    requires Inv(s)
    ensures Inv(Step(s, Crash))
  {
    var s' := Step(s, Crash);
    RestartInv(s.core);
    forall u: nat
      ensures TaskOk(s', u, TaskOf(s', u))
    {
      assert TaskOf(s', u).Idle?;
    }
  }

  lemma ChangeMembersInv(s: State, members: Members)
    requires Inv(s)
    ensures Inv(Step(s, ChangeMembers(members)))
  {
    var s' := Step(s, ChangeMembers(members));
    forall u: nat
      ensures TaskOk(s', u, TaskOf(s', u))
    {
      assert TaskOk(s, u, TaskOf(s, u));
    }
  }

  lemma SamplesInv(s: State, e: Event)
    requires Inv(s) && (e.Sample? || e.FirstSample? || e.SecondSample?)
    ensures Inv(Step(s, e))
  {
    var task := TaskOf(s, e.task);
    assert TaskOk(s, e.task, task);
    if s.monitorHolder.None? {
      if e.Sample? && task.Idle? {
        SampleByInv(s, e.task, e.clock, e.watermark, Recording, Idle);
      } else if e.FirstSample? && task.Idle? {
        SampleByInv(s, e.task, e.clock, e.watermark, RecordingFirst, GotBefore(e.allow, BootOf(e.clock), s.clears));
      } else if e.SecondSample? && task.Probed? {
        SampleByInv(s, e.task, e.clock, e.watermark, RecordingSecond, GotAfter(task.allow, task.members, task.healthy, BootOf(e.clock), s.clears));
      }
    }
  }

  lemma StepInv(s: State, e: Event)
    requires Inv(s)
    ensures Inv(Step(s, e))
  {
    match e
    case Sample(_, _, _) => SamplesInv(s, e);
    case FirstSample(_, _, _, _) => SamplesInv(s, e);
    case SecondSample(_, _, _) => SamplesInv(s, e);
    case Record(t, written) => RecordInv(s, t, written);
    case ReadMembers(t) => ReadMembersInv(s, t);
    case TakeCache(t, rosterAgrees, responding) => TakeCacheInv(s, t, rosterAgrees, responding);
    case Conclude(t) => ConcludeInv(s, t);
    case Acknowledge(t, reasonGiven, clock, committed) => AcknowledgeInv(s, t, reasonGiven, clock, committed);
    case AckStore(t, written) => AckStoreInv(s, t, written);
    case AckFinish(t) => AckFinishInv(s, t);
    case Dropped(t, written) => DroppedInv(s, t, written);
    case ChangeMembers(members) => ChangeMembersInv(s, members);
    case Crash => CrashInv(s);
  }

  lemma {:induction false} RunInv(stored: bool, members: Members, local: nat, events: seq<Event>)
    ensures Inv(Run(Start(stored, members, local), events))
    decreases |events|
  {
    if events == [] {
      StartInv(stored, members, local);
    } else {
      RunInv(stored, members, local, events[..|events| - 1]);
      StepInv(Run(Start(stored, members, local), events[..|events| - 1]), events[|events| - 1]);
    }
  }

  // ----- what holds in every reachable state -----

  ghost predicate Reachable(s: State) {
    exists stored, members, local, events :: s == Run(Start(stored, members, local), events)
  }

  lemma RunSnoc(s: State, events: seq<Event>, e: Event)
    ensures Run(s, events + [e]) == Step(Run(s, events), e)
  {
    assert (events + [e])[..|events|] == events;
  }

  lemma ReachableStart(stored: bool, members: Members, local: nat)
    ensures Reachable(Start(stored, members, local))
  {
    assert Start(stored, members, local) == Run(Start(stored, members, local), []);
  }

  lemma ReachableStep(s: State, e: Event)
    requires Reachable(s)
    ensures Reachable(Step(s, e))
  {
    var stored, members, local, events :| s == Run(Start(stored, members, local), events);
    RunSnoc(Start(stored, members, local), events, e);
  }

  lemma ReachableInv(s: State)
    requires Reachable(s)
    ensures Inv(s)
  {
    var stored, members, local, events :| s == Run(Start(stored, members, local), events);
    RunInv(stored, members, local, events);
  }

  /**
   * Whenever the monitor lock is free, the published signal is latched exactly when the monitor is
   * faulted or an acknowledgement that cleared it was dropped before it had finished.
   */
  lemma SignalMatchesAtRelease(s: State)
    requires Reachable(s) && s.monitorHolder.None?
    ensures s.core.signal == Latched <==> s.core.monitor.faulted || s.unfinished
  {
    ReachableInv(s);
  }

  /**
   * While the monitor is not faulted, a cached quorum that was sampled since the monitor was last
   * cleared is not newer than the last boot time observed. Every cached quorum is such a one, unless
   * an acknowledgement has cleared the monitor and none has finished since.
   */
  lemma CacheNeverAhead(s: State)
    requires Reachable(s) && s.cache.Some?
    ensures !s.core.monitor.faulted && s.tag == s.clears ==> BootSeen(s.core, s.cache.value.checkedBoot)
    ensures s.tag <= s.clears && (s.unfinished || s.tag == s.clears)
  {
    ReachableInv(s);
  }

  /**
   * Every answer is a real joint quorum for the membership its caller read; one taken from the
   * cache is under ten seconds old at the caller's own reading. If it was sampled since the monitor
   * was last cleared, and the monitor is not faulted, its age was not cut off by a clock reversal;
   * every answer that needed the cache lock is such a one, unless an acknowledgement has cleared the
   * monitor and none has finished since.
   */
  lemma AnswersAreFresh(s: State, i: nat)
    requires Reachable(s) && i < |s.answers|
    ensures AnswerOk(s.answers[i])
  {
    ReachableInv(s);
  }

  /**
   * After a fault no sample succeeds before an acknowledgement has cleared the flag and the monitor, or
   * a restart has found no stored fault.
   */
  lemma NoSuccessAfterFaultInRuns(s: State, i: nat, j: nat)
    requires Reachable(s) && i < j < |s.core.log| && s.core.log[i].NoteFault? && s.core.log[j].NoteSampleOk?
    ensures exists k: nat :: i < k < j && Cleared(s.core.log[k])
  {
    ReachableInv(s);
    NoSuccessAfterFault(s.core.log, i, j);
  }

  /**
   * A recorded fault outlives every restart: before a sample succeeds again, an acknowledgement with
   * evidence has cleared the flag, and it has cleared the monitor too or was dropped during that write.
   */
  lemma RecordedFaultSurvivesRuns(s: State, i: nat, j: nat)
    requires Reachable(s) && i < j < |s.core.log| && s.core.log[i].NoteRecorded? && s.core.log[j].NoteSampleOk?
    ensures exists k: nat :: i < k < j && Released(s.core.log[k])
                             && exists n: nat :: Evidence(s.core.log[k].history, n, s.core.log[k].watermark)
  {
    ReachableInv(s);
    RecordedFaultSurvives(s.core.log, i, j);
  }

  /** Whatever clears the stored flag or the monitor rests on ten healthy seconds of observations. */
  lemma AcknowledgementsHaveEvidence(s: State, j: nat)
    requires Reachable(s) && j < |s.core.log| && Released(s.core.log[j])
    ensures exists i: nat :: Evidence(s.core.log[j].history, i, s.core.log[j].watermark)
  {
    ReachableInv(s);
    assert NoteFits(s.core.log, j);
  }

  /** In every run exactly the untrue observations are marked as faults, each against the last reading seen before it. */
  lemma MarksAreRight(s: State, j: nat)
    requires Reachable(s) && j < |s.core.history| && s.core.history[j].Seen?
    ensures var e := s.core.history[j];
            e.fault <==> Untrue(LastSeen(s.core.history[..j]), e.reading, e.watermark)
  {
    ReachableInv(s);
    assert Marked(s.core.history, j);
  }

  /**
   * Every sample that succeeds returns a reading at most two seconds behind the watermark and in step
   * with the last reading seen before it.
   */
  lemma SuccessesAreTrue(s: State, j: nat)
    requires Reachable(s) && j < |s.core.log| && s.core.log[j].NoteSampleOk?
    ensures var history := s.core.log[j].history;
            && history != [] && history[|history| - 1].Seen?
            && var (e, before) := (history[|history| - 1], LastSeen(history[..|history| - 1]));
               && e.watermark <= e.reading.wall + 2000
               && (before.Some? ==>
                     && before.value.boot <= e.reading.boot <= before.value.boot + 2000
                     && var (wall, boot) := (e.reading.wall - before.value.wall, e.reading.boot - before.value.boot);
                        1000 * (wall - boot - 250) <= boot && 1000 * (boot - wall - 250) <= boot)
  {
    ReachableInv(s);
    assert NoteFits(s.core.log, j);
    assert Marked(s.core.log[j].history, |s.core.log[j].history| - 1);
  }

  /**
   * Whatever went wrong in the process before a sample that succeeds, it was followed by at least ten
   * seconds of at least six consecutive healthy observations.
   */
  lemma FaultsAreRedeemed(s: State, j: nat, i: nat)
    requires Reachable(s) && j < |s.core.log| && s.core.log[j].NoteSampleOk?
    requires i < |s.core.log[j].history| && !ClockCore.Healthy(s.core.log[j].history[i])
    ensures RedeemedAt(s.core.log[j].history, i)
  {
    ReachableInv(s);
    assert NoteFits(s.core.log, j);
  }

  /** A restart is faulted exactly when the last write of the flag set it. */
  lemma RestartKeepsStored(s: State)
    requires Reachable(s)
    ensures var c := Step(s, Crash).core;
            && (c.monitor.faulted <==> StoredOf(s.core.log)) && (c.monitor.recorded <==> StoredOf(s.core.log))
            && c.signal == SignalOf(StoredOf(s.core.log))
  {
    ReachableInv(s);
  }
}
