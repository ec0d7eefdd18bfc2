/** The client's retry loop: a deadline, a jittered back-off, and leader redirects. */
module Retry {
  import opened Prelude

  /** Times and durations are nanoseconds. */
  const MILLISECOND := 1_000_000
  const FIRST_BACKOFF := 250
  const LAST_BACKOFF := 5_000
  const ATTEMPT_LIMIT := 5_000 * MILLISECOND
  const SHORTEST_SLEEP := FIRST_BACKOFF * MILLISECOND

  datatype Code = Unavailable | DeadlineExceeded | Unknown | Cancelled | OtherCode(name: string)

  /** What a refused call says about the leader, and what comes of connecting there. */
  datatype Leader = NotNamed | Malformed | Unreachable | Connected(endpoint: string)

  datatype Reply = Response | Failed(code: Code, leader: Leader) | Elapsed

  /**
   * Everything the world decides about one turn of the loop: how late the turn starts, the reply and
   * how long it and a redirect take, the random number if there is one, and how late a sleeper wakes.
   */
  datatype Turn = Turn(late: nat, reply: Reply, took: nat, draw: Option<nat>, overslept: nat)

  predicate Retryable(code: Code) {
    code in {Unavailable, DeadlineExceeded, Unknown, Cancelled}
  }

  // ----- the record of one call -----

  datatype After =
    | Ended
    | Redirected(at: nat, leader: string)
    | Slept(from: nat, length: nat, jitter: nat, backoff: nat, woke: nat)

  datatype Attempt = Attempt(at: nat, limit: nat, endpoint: string, after: After)

  datatype Call = Call(start: nat, budget: nat, endpoint: string) {
    function Deadline(): nat { start + budget }
  }

  function Min(a: nat, b: nat): nat {
    if a < b then a else b
  }

  /** The time left, never negative. */
  function Left(deadline: nat, now: nat): nat {
    if now < deadline then deadline - now else 0
  }

  function Sleeps(log: seq<Attempt>): nat {
    if log == [] then 0 else Sleeps(log[..|log| - 1]) + if log[|log| - 1].after.Slept? then 1 else 0
  }

  /** Attempts that did not lead to another endpoint. */
  function Unfollowed(log: seq<Attempt>): nat {
    if log == [] then 0 else Unfollowed(log[..|log| - 1]) + if log[|log| - 1].after.Redirected? then 0 else 1
  }

  /** The back-off after some number of sleeps. */
  function Backoff(sleeps: nat): nat {
    if sleeps == 0 then FIRST_BACKOFF else Min(2 * Backoff(sleeps - 1), LAST_BACKOFF)
  }

  /** When the loop comes around again. */
  function Clock(call: Call, log: seq<Attempt>): nat {
    if log == [] then call.start
    else match log[|log| - 1].after
      case Ended => log[|log| - 1].at
      case Redirected(at, _) => at
      case Slept(_, _, _, _, woke) => woke
  }

  /** Where the next attempt goes. */
  function Endpoint(call: Call, log: seq<Attempt>): string
    decreases |log|
  {
    if log == [] then call.endpoint
    else if log[|log| - 1].after.Redirected? then log[|log| - 1].after.leader
    else Endpoint(call, log[..|log| - 1])
  }

  predicate Open(log: seq<Attempt>) {
    log == [] || !log[|log| - 1].after.Ended?
  }

  predicate SleepFits(call: Call, sleeps: nat, turn: Turn, from: nat, after: After)
    requires after.Slept?
  {
    && after.from == from && after.backoff == Backoff(sleeps)
    && turn.draw.Some? && after.backoff > 249 && after.jitter == 250 + turn.draw.value % (after.backoff - 249)
    && after.length == Min(after.jitter * MILLISECOND, Left(call.Deadline(), from))
    && after.woke == from + after.length + turn.overslept
  }

  /** The attempt is the one this turn makes after the earlier ones. */
  predicate Follows(call: Call, earlier: seq<Attempt>, turn: Turn, a: Attempt) {
    && Open(earlier)
    && a.at == Clock(call, earlier) + turn.late < call.Deadline()
    && a.limit == Min(call.Deadline() - a.at, ATTEMPT_LIMIT)
    && a.endpoint == Endpoint(call, earlier)
    && match a.after
       case Ended => Final(turn)
       case Redirected(at, leader) => turn.reply == Failed(Unavailable, Connected(leader)) && at == a.at + turn.took
       case Slept(_, _, _, _, _) => Waits(turn.reply) && SleepFits(call, Sleeps(earlier), turn, a.at + turn.took, a.after)
  }

  /** The reply is one to sleep on: a retryable failure that did not lead elsewhere, or none in time. */
  predicate Waits(reply: Reply) {
    match reply
    case Response => false
    case Elapsed => true
    case Failed(code, leader) => Retryable(code) && (code == Unavailable ==> leader.NotNamed? || leader.Unreachable?)
  }

  predicate Leads(reply: Reply) {
    reply.Failed? && reply.code == Unavailable && reply.leader.Connected?
  }

  predicate Final(turn: Turn) {
    match turn.reply
    case Response => true
    case Elapsed => turn.draw.None?
    case Failed(code, leader) =>
      || !Retryable(code)
      || (code == Unavailable && leader.Malformed?)
      || (Waits(turn.reply) && turn.draw.None?)
  }

  ghost predicate Lawful(call: Call, turns: seq<Turn>, log: seq<Attempt>)
    requires |log| <= |turns|
  {
    var n := |log|;
    n == 0 || (Lawful(call, turns, log[..n - 1]) && Follows(call, log[..n - 1], turns[n - 1], log[n - 1]))
  }

  lemma LawfulSnoc(call: Call, turns: seq<Turn>, log: seq<Attempt>, a: Attempt)
    requires |log| < |turns| && Lawful(call, turns, log) && Follows(call, log, turns[|log|], a)
    ensures Lawful(call, turns, log + [a])
    ensures Sleeps(log + [a]) == Sleeps(log) + if a.after.Slept? then 1 else 0
    ensures Endpoint(call, log + [a]) == if a.after.Redirected? then a.after.leader else Endpoint(call, log)
  {
    assert (log + [a])[..|log|] == log;
  }

  // ----- bounds over every run -----

  /** The modulus of the jitter is never zero, and the back-off doubles up to its ceiling. */
  lemma {:induction false} BackoffBounded(sleeps: nat)
    ensures FIRST_BACKOFF <= Backoff(sleeps) <= LAST_BACKOFF
    ensures sleeps >= 5 ==> Backoff(sleeps) == LAST_BACKOFF
    ensures Backoff(sleeps) <= Backoff(sleeps + 1)
  {
    if sleeps > 0 {
      BackoffBounded(sleeps - 1);
    }
  }

  lemma JitterBounded(call: Call, sleeps: nat, turn: Turn, from: nat, after: After)
    requires after.Slept? && SleepFits(call, sleeps, turn, from, after)
    ensures FIRST_BACKOFF <= after.jitter <= after.backoff <= LAST_BACKOFF
    ensures from + after.length <= if from < call.Deadline() then call.Deadline() else from
    ensures after.woke >= call.Deadline() || after.woke >= from + SHORTEST_SLEEP
  {
    BackoffBounded(sleeps);
    assert after.jitter * MILLISECOND >= SHORTEST_SLEEP;
  }

  lemma {:induction false} LawfulAt(call: Call, turns: seq<Turn>, log: seq<Attempt>, i: nat)
    requires |log| <= |turns| && Lawful(call, turns, log) && i < |log|
    ensures Lawful(call, turns, log[..i]) && Follows(call, log[..i], turns[i], log[i])
    decreases |log|
  {
    var front := log[..|log| - 1];
    if i < |log| - 1 {
      LawfulAt(call, turns, front, i);
      assert front[..i] == log[..i];
    }
  }

  /** In every run, each sleep is jittered within bounds and none is asked to pass the deadline. */
  lemma SleepsBounded(call: Call, turns: seq<Turn>, log: seq<Attempt>, i: nat)
    requires |log| <= |turns| && Lawful(call, turns, log) && i < |log| && log[i].after.Slept?
    ensures var s := log[i].after;
            && FIRST_BACKOFF <= s.jitter <= s.backoff <= LAST_BACKOFF
            && s.from + s.length <= if s.from < call.Deadline() then call.Deadline() else s.from
  {
    LawfulAt(call, turns, log, i);
    JitterBounded(call, Sleeps(log[..i]), turns[i], log[i].at + turns[i].took, log[i].after);
  }

  /** Attempts that led to another endpoint. */
  function Redirects(log: seq<Attempt>): nat {
    if log == [] then 0 else Redirects(log[..|log| - 1]) + if log[|log| - 1].after.Redirected? then 1 else 0
  }

  lemma {:induction false} RedirectedOrNot(log: seq<Attempt>)
    ensures Redirects(log) + Unfollowed(log) == |log|
    decreases |log|
  {
    if log != [] {
      RedirectedOrNot(log[..|log| - 1]);
    }
  }

  /** Being refused and connecting to the leader took at least `d`, every time. */
  ghost predicate RedirectsTake(turns: seq<Turn>, log: seq<Attempt>, d: nat)
    requires |log| <= |turns|
  {
    forall i :: 0 <= i < |log| && log[i].after.Redirected? ==> turns[i].took >= d
  }

  lemma TimesNext(n: nat, d: nat)
    ensures (n + 1) * d == n * d + d
  {
  }

  /** An attempt in time has seen every earlier sleep last its shortest and every redirect take its time. */
  lemma {:induction false} WaitsTakeTime(call: Call, turns: seq<Turn>, log: seq<Attempt>, d: nat)
    requires |log| <= |turns| && Lawful(call, turns, log) && RedirectsTake(turns, log, d)
    ensures Clock(call, log) >= call.Deadline() || Clock(call, log) >= call.start + Sleeps(log) * SHORTEST_SLEEP + Redirects(log) * d
    decreases |log|
  {
    if log != [] {
      var front, a, turn := log[..|log| - 1], log[|log| - 1], turns[|log| - 1];
      WaitsTakeTime(call, turns, front, d);
      if a.after.Slept? {
        JitterBounded(call, Sleeps(front), turn, a.at + turn.took, a.after);
        TimesNext(Sleeps(front), SHORTEST_SLEEP);
      } else if a.after.Redirected? {
        TimesNext(Redirects(front), d);
      }
    }
  }

  lemma {:induction false} OpenUnfollowed(call: Call, turns: seq<Turn>, log: seq<Attempt>)
    requires |log| <= |turns| && Lawful(call, turns, log)
    ensures Unfollowed(log) <= Sleeps(log) + 1
    ensures Open(log) ==> Unfollowed(log) == Sleeps(log)
    decreases |log|
  {
    if log != [] {
      OpenUnfollowed(call, turns, log[..|log| - 1]);
    }
  }

  function CeilDiv(a: nat, b: nat): nat
    requires b > 0
  {
    (a + b - 1) / b
  }

  lemma CeilBound(n: nat, a: nat, b: nat)
    requires b > 0 && n * b < a
    ensures n + 1 <= CeilDiv(a, b)
  {
    assert (n + 1) * b == n * b + b <= a + b - 1;
  }

  /** Whatever the world does, attempts that were not redirected are as few as the shortest sleeps allow. */
  lemma {:induction false} AttemptsBounded(call: Call, turns: seq<Turn>, log: seq<Attempt>)
    requires |log| <= |turns| && Lawful(call, turns, log)
    ensures Unfollowed(log) <= CeilDiv(call.budget, SHORTEST_SLEEP)
    decreases |log|
  {
    if log != [] {
      var front := log[..|log| - 1];
      if log[|log| - 1].after.Redirected? {
        AttemptsBounded(call, turns, front);
      } else {
        WaitsTakeTime(call, turns, front, 0);
        OpenUnfollowed(call, turns, front);
        CeilBound(Sleeps(front), call.budget, SHORTEST_SLEEP);
      }
    }
  }

  /** Attempts that are redirected are as few as the time each takes allows. */
  lemma {:induction false} RedirectsBounded(call: Call, turns: seq<Turn>, log: seq<Attempt>, d: nat)
    requires |log| <= |turns| && Lawful(call, turns, log) && RedirectsTake(turns, log, d) && d > 0
    ensures Redirects(log) <= CeilDiv(call.budget, d)
    ensures |log| <= CeilDiv(call.budget, SHORTEST_SLEEP) + CeilDiv(call.budget, d)
    decreases |log|
  {
    if log != [] {
      var front := log[..|log| - 1];
      if log[|log| - 1].after.Redirected? {
        WaitsTakeTime(call, turns, front, d);
        CeilBound(Redirects(front), call.budget, d);
      } else {
        RedirectsBounded(call, turns, front, d);
      }
    }
    AttemptsBounded(call, turns, log);
    RedirectedOrNot(log);
  }

  /** A run of redirects alone stays within the budget up to its last one. */
  lemma RedirectRunFits(call: Call, turns: seq<Turn>, log: seq<Attempt>, d: nat)
    requires |log| <= |turns| && Lawful(call, turns, log) && RedirectsTake(turns, log, d) && Unfollowed(log) == 0 && log != []
    ensures (|log| - 1) * d < call.budget
  {
    var front := log[..|log| - 1];
    WaitsTakeTime(call, turns, front, d);
    RedirectedOrNot(front);
    RedirectedOrNot(log);
  }

  /** When the redirect after `i` earlier ones starts, if each takes `d`. */
  function RunAt(call: Call, d: nat, i: nat): nat {
    if i == 0 then call.start else RunAt(call, d, i - 1) + d
  }

  lemma {:induction false} TimesGrows(m: nat, n: nat, d: nat)
    requires m <= n
    ensures m * d <= n * d
  {
    if m < n {
      TimesGrows(m, n - 1, d);
      TimesNext(n - 1, d);
    }
  }

  lemma {:induction false} RunAtIs(call: Call, d: nat, i: nat)
    ensures RunAt(call, d, i) == call.start + i * d
  {
    if i > 0 {
      RunAtIs(call, d, i - 1);
      TimesNext(i - 1, d);
    }
  }

  lemma RunAtInTime(call: Call, d: nat, i: nat, n: nat)
    requires i < n && (n - 1) * d < call.budget
    ensures RunAt(call, d, i) < call.Deadline()
  {
    RunAtIs(call, d, i);
    TimesGrows(i, n - 1, d);
  }

  function Turning(leader: string, d: nat): Turn {
    Turn(0, Failed(Unavailable, Connected(leader)), d, None, 0)
  }

  function Turned(call: Call, log: seq<Attempt>, leader: string, d: nat): Attempt {
    var at := Clock(call, log);
    Attempt(at, Min(Left(call.Deadline(), at), ATTEMPT_LIMIT), Endpoint(call, log), Redirected(at + d, leader))
  }

  lemma {:induction false} TurnedFollows(call: Call, turns: seq<Turn>, log: seq<Attempt>, leader: string, d: nat)
    requires |log| < |turns| && turns[|log|] == Turning(leader, d) && Lawful(call, turns, log) && Open(log)
    requires Clock(call, log) < call.Deadline() && Unfollowed(log) == 0
    ensures var log' := log + [Turned(call, log, leader, d)];
            Lawful(call, turns, log') && Open(log') && Unfollowed(log') == 0 && Clock(call, log') == Clock(call, log) + d
  {
    var a := Turned(call, log, leader, d);
    LawfulSnoc(call, turns, log, a);
    assert (log + [a])[..|log|] == log;
  }

  /** Within that, redirects go around without a sleep: as often as wanted if they take no time. */
  lemma RedirectRunExists(call: Call, leader: string, n: nat, d: nat) returns (turns: seq<Turn>, log: seq<Attempt>)
    requires n == 0 || (n - 1) * d < call.budget
    ensures |turns| == |log| == n && Lawful(call, turns, log) && Unfollowed(log) == 0
    ensures forall i :: 0 <= i < n ==> turns[i].took == d
  {
    turns := seq(n, _ => Turning(leader, d));
    log := [];
    while |log| < n
      invariant |log| <= n && Lawful(call, turns, log) && Open(log)
      invariant Clock(call, log) == RunAt(call, d, |log|) && Unfollowed(log) == 0
      decreases n - |log|
    {
      RunAtInTime(call, d, |log|, n);
      TurnedFollows(call, turns, log, leader, d);
      log := log + [Turned(call, log, leader, d)];
    }
  }

  // ----- the loop -----

  datatype End = Answered | Refused(code: Code) | BadRedirect | NoRandomness | OutOfTime | StillTrying

  /** How a reply that neither waits nor leads elsewhere ends the call. */
  function Verdict(reply: Reply): End {
    match reply
    case Response => Answered
    case Elapsed => StillTrying
    case Failed(code, leader) => if Retryable(code) then BadRedirect else Refused(code)
  }

  /** Why a turn ended the call, if it did. */
  predicate Causes(turn: Turn, after: After, end: End) {
    match end
    case StillTrying => !after.Ended?
    case OutOfTime => false
    case Answered => after.Ended? && turn.reply.Response?
    case Refused(code) => after.Ended? && turn.reply.Failed? && turn.reply.code == code && !Retryable(code)
    case BadRedirect => after.Ended? && turn.reply == Failed(Unavailable, Malformed)
    case NoRandomness => after.Ended? && Waits(turn.reply) && turn.draw.None?
  }

  /** Why the call came back, or that the given turns are used up and it has not. */
  predicate EndsWith(call: Call, turns: seq<Turn>, log: seq<Attempt>, end: End) {
    match end
    case StillTrying => |log| == |turns| && Open(log)
    case OutOfTime => Open(log) && |log| < |turns| && Clock(call, log) + turns[|log|].late >= call.Deadline()
    case _ => 0 < |log| <= |turns| && Causes(turns[|log| - 1], log[|log| - 1].after, end)
  }

  /** Sleeps for the jittered back-off, or until the deadline if that is sooner. */
  method Pause(ghost call: Call, ghost sleeps: nat, turn: Turn, now: nat, deadline: nat, backoff: nat) returns (after: After)
    requires turn.draw.Some? && deadline == call.Deadline() && backoff == Backoff(sleeps)
    ensures after.Slept? && SleepFits(call, sleeps, turn, now, after)
  {
    BackoffBounded(sleeps);
    var jitter := 250 + turn.draw.value % (backoff - 249);
    var length := Min(jitter * MILLISECOND, Left(deadline, now));
    after := Slept(now, length, jitter, backoff, now + length + turn.overslept);
  }

  class GrpcClient {
    var inner: string
    const retryBudget: nat

    constructor (endpoint: string, budget: nat)
      ensures inner == endpoint && retryBudget == budget
    {
      inner, retryBudget := endpoint, budget;
    }

    /** Connects to the leader a refusal names; `Some(true)` means the next attempt goes there. */
    method FollowRedirect(code: Code, leader: Leader) returns (r: Option<bool>)
      modifies this`inner
      ensures r.None? <==> code == Unavailable && leader.Malformed?
      ensures r == Some(true) <==> code == Unavailable && leader.Connected?
      ensures inner == if r == Some(true) then leader.endpoint else old(inner)
    {
      if code != Unavailable {
        return Some(false);
      }
      match leader
      case NotNamed => r := Some(false);
      case Malformed => r := None;
      case Unreachable => r := Some(false);
      case Connected(endpoint) => inner := endpoint; r := Some(true);
    }

    /** What a reply leads to before any sleep. */
    method Settle(reply: Reply, now: nat) returns (end: End, after: After)
      modifies this`inner
      ensures Waits(reply) <==> end.StillTrying? && after.Ended?
      ensures after == if Leads(reply) then Redirected(now, reply.leader.endpoint) else Ended
      ensures inner == if Leads(reply) then reply.leader.endpoint else old(inner)
      ensures Waits(reply) || Leads(reply) <==> end.StillTrying?
      ensures end.StillTrying? || end == Verdict(reply)
    {
      end, after := StillTrying, Ended;
      match reply
      case Response => end := Answered;
      case Elapsed =>
      case Failed(code, leader) =>
        if !Retryable(code) {
          end := Refused(code);
        } else {
          var followed := FollowRedirect(code, leader);
          if followed.None? {
            end := BadRedirect;
          } else if followed.value {
            after := Redirected(now, inner);
          }
        }
    }

    /** One attempt, started in time, and the sleep after it if there is one. */
    method TakeTurn(ghost call: Call, ghost earlier: seq<Attempt>, turn: Turn, at: nat, deadline: nat, backoff: nat)
      returns (end: End, a: Attempt, backoff': nat)
      requires Open(earlier) && at == Clock(call, earlier) + turn.late < call.Deadline() == deadline
      requires inner == Endpoint(call, earlier) && backoff == Backoff(Sleeps(earlier))
      modifies this`inner
      ensures Follows(call, earlier, turn, a) && Causes(turn, a.after, end)
      ensures inner == if a.after.Redirected? then a.after.leader else old(inner)
      ensures backoff' == Backoff(Sleeps(earlier) + if a.after.Slept? then 1 else 0)
    {
      backoff' := backoff;
      var limit, endpoint, now := Min(deadline - at, ATTEMPT_LIMIT), inner, at + turn.took;
      var after;
      end, after := Settle(turn.reply, now);
      if end.StillTrying? && after.Ended? {
        if turn.draw.None? {
          end := NoRandomness;
        } else {
          after := Pause(call, Sleeps(earlier), turn, now, deadline, backoff);
          backoff' := Min(backoff * 2, LAST_BACKOFF);
        }
      }
      a := Attempt(at, limit, endpoint, after);
    }

    method Retry(start: nat, turns: seq<Turn>) returns (end: End, log: seq<Attempt>)
      modifies this`inner
      ensures |log| <= |turns|
      ensures Lawful(Call(start, retryBudget, old(inner)), turns, log)
      ensures EndsWith(Call(start, retryBudget, old(inner)), turns, log, end)
      ensures inner == Endpoint(Call(start, retryBudget, old(inner)), log)
    {
      ghost var call := Call(start, retryBudget, inner);
      var deadline, backoff, now := start + retryBudget, FIRST_BACKOFF, start;
      log, end := [], StillTrying;
      while |log| < |turns|
        invariant |log| <= |turns| && Lawful(call, turns, log) && Open(log)
        invariant now == Clock(call, log) && inner == Endpoint(call, log) && backoff == Backoff(Sleeps(log))
        decreases |turns| - |log|
      {
        var turn := turns[|log|];
        var at := now + turn.late;
        if Left(deadline, at) == 0 {
          return OutOfTime, log;
        }
        var attempt;
        end, attempt, backoff := TakeTurn(call, log, turn, at, deadline, backoff);
        LawfulSnoc(call, turns, log, attempt);
        log := log + [attempt];
        match attempt.after {
          case Ended => return;
          case Redirected(moved, _) => now := moved;
          case Slept(_, _, _, _, woke) => now := woke;
        }
      }
      end := StillTrying;
    }
  }
}
