/** What a lawful run of the retry loop looks like, attempt by attempt and in plain numbers. */
module RetryLaws {
  import opened Prelude
  import opened Retry

  /** How many of the attempts before place `i` were followed by a sleep. */
  ghost function SleptBefore(log: seq<Attempt>, i: nat): nat
    requires i <= |log|
  {
    |SleptPlaces(log, i)|
  }

  ghost function SleptPlaces(log: seq<Attempt>, i: nat): set<nat>
    requires i <= |log|
  {
    set j: nat | j < i && log[j].after.Slept?
  }

  lemma PlacesGrow(log: seq<Attempt>, i: nat)
    requires 0 < i <= |log|
    ensures |SleptPlaces(log, i)| == |SleptPlaces(log, i - 1)| + if log[i - 1].after.Slept? then 1 else 0
  {
    var before: set<nat>, last: nat := SleptPlaces(log, i - 1), i - 1;
    assert last !in before;
    assert SleptPlaces(log, i) == if log[i - 1].after.Slept? then before + {last} else before;
  }

  lemma {:induction false} SleepsCounted(log: seq<Attempt>, i: nat)
    requires i <= |log|
    ensures Sleeps(log[..i]) == SleptBefore(log, i)
  {
    if i > 0 {
      SleepsCounted(log, i - 1);
      assert log[..i][..i - 1] == log[..i - 1] && log[..i][i - 1] == log[i - 1];
      PlacesGrow(log, i);
    }
  }

  /** A quarter of a second, doubled with every sleep up to five seconds. */
  function Ceiling(sleeps: nat): nat {
    if sleeps < 5 then [250, 500, 1_000, 2_000, 4_000][sleeps] else 5_000
  }

  lemma {:induction false} BackoffIs(sleeps: nat)
    ensures Backoff(sleeps) == Ceiling(sleeps)
  {
    if sleeps > 0 {
      BackoffIs(sleeps - 1);
    }
  }

  /** A reply to try again on: none in time, or one of four failures without a leader to go to. */
  predicate TryAgain(reply: Reply) {
    || reply.Elapsed?
    || (reply.Failed? && (reply.code.DeadlineExceeded? || reply.code.Unknown? || reply.code.Cancelled?))
    || (reply.Failed? && reply.code.Unavailable? && (reply.leader.NotNamed? || reply.leader.Unreachable?))
  }

  lemma WaitsIff(reply: Reply)
    ensures Waits(reply) <==> TryAgain(reply)
    ensures reply.Failed? ==> (Retryable(reply.code) <==> !reply.code.OtherCode?)
  {
  }

  /** The sleep lasts as many milliseconds as the random draw says within the ceiling, but not past the deadline. */
  ghost predicate SleepLaw(call: Call, turn: Turn, a: Attempt, sleeps: nat)
    requires a.after.Slept?
  {
    var s, deadline := a.after, call.start + call.budget;
    && s.from == a.at + turn.took && s.backoff == Ceiling(sleeps) && 250 <= s.jitter <= s.backoff
    && turn.draw.Some? && LeftOver(turn.draw.value, s.backoff - 249, s.jitter - 250)
    && (s.length == s.jitter * 1_000_000 || (s.length < s.jitter * 1_000_000 && (s.from + s.length == deadline || (s.length == 0 && s.from > deadline))))
    && (s.from < deadline ==> s.from + s.length <= deadline)
    && (s.from >= deadline ==> s.length == 0)
    && s.woke == s.from + s.length + turn.overslept
  }

  function Filled(q: nat, m: nat, r: nat): nat {
    q * m + r
  }

  /** `r` is what is left of `n` after some number of times `m`. */
  ghost predicate LeftOver(n: nat, m: nat, r: nat) {
    exists q: nat :: n == Filled(q, m, r)
  }

  lemma Remainder(draw: nat, m: nat, r: nat)
    requires m > 0
    ensures r == draw % m <==> r < m && LeftOver(draw, m, r)
  {
    assert draw == Filled(draw / m, m, draw % m);
    if r < m && LeftOver(draw, m, r) {
      var q: nat :| draw == Filled(q, m, r);
      RemainderUnique(draw, m, q, r);
    }
  }

  lemma RemainderUnique(draw: nat, m: nat, q: nat, r: nat)
    requires m > 0 && draw == q * m + r && r < m
    ensures r == draw % m
  {
    var p := draw / m;
    assert draw == p * m + draw % m;
    if p < q {
      assert (p + 1) * m <= q * m by {
        TimesGrows(p + 1, q, m);
      }
      TimesNext(p, m);
    } else if q < p {
      assert (q + 1) * m <= p * m by {
        TimesGrows(q + 1, p, m);
      }
      TimesNext(q, m);
    }
  }

  lemma SleepLawIff(call: Call, turn: Turn, a: Attempt, sleeps: nat)
    requires a.after.Slept?
    ensures SleepFits(call, sleeps, turn, a.at + turn.took, a.after) <==> SleepLaw(call, turn, a, sleeps)
  {
    BackoffIs(sleeps);
    BackoffBounded(sleeps);
    if turn.draw.Some? && a.after.backoff == Ceiling(sleeps) && a.after.jitter >= 250 {
      Remainder(turn.draw.value, a.after.backoff - 249, a.after.jitter - 250);
    }
  }

  /** What came before decides where and when the attempt is made; what came back decides what happens next. */
  ghost predicate AttemptLaw(call: Call, turns: seq<Turn>, log: seq<Attempt>, i: nat)
    requires i < |log| <= |turns|
  {
    var a, turn, deadline := log[i], turns[i], call.start + call.budget;
    && StartsLawfully(call, log, i, turn)
    && a.limit <= 5_000_000_000 && a.at + a.limit <= deadline && (a.limit == 5_000_000_000 || a.at + a.limit == deadline)
    && (a.after.Redirected? <==> turn.reply.Failed? && turn.reply.code.Unavailable? && turn.reply.leader.Connected?)
    && (a.after.Redirected? ==> a.after.leader == turn.reply.leader.endpoint && a.after.at == a.at + turn.took)
    && (a.after.Slept? <==> TryAgain(turn.reply) && turn.draw.Some?)
    && (a.after.Slept? ==> SleepLaw(call, turn, a, SleptBefore(log, i)))
  }

  /** The first attempt is made at the start, every other one after a sleep or at the leader the one before named. */
  ghost predicate StartsLawfully(call: Call, log: seq<Attempt>, i: nat, turn: Turn)
    requires i < |log|
  {
    && log[i].at < call.start + call.budget
    && if i == 0 then log[i].at == call.start + turn.late && log[i].endpoint == call.endpoint
       else match log[i - 1].after
         case Ended => false
         case Redirected(at, leader) => log[i].at == at + turn.late && log[i].endpoint == leader
         case Slept(_, _, _, _, woke) => log[i].at == woke + turn.late && log[i].endpoint == log[i - 1].endpoint
  }

  lemma {:induction false} EndpointIs(call: Call, turns: seq<Turn>, log: seq<Attempt>)
    requires |log| <= |turns| && Lawful(call, turns, log)
    ensures Endpoint(call, log) ==
            if log == [] then call.endpoint
            else if log[|log| - 1].after.Redirected? then log[|log| - 1].after.leader else log[|log| - 1].endpoint
  {
  }

  lemma StartsIff(call: Call, turns: seq<Turn>, log: seq<Attempt>, i: nat)
    requires i < |log| <= |turns| && Lawful(call, turns, log[..i])
    ensures StartsLawfully(call, log, i, turns[i]) <==>
            && Open(log[..i]) && log[i].at == Clock(call, log[..i]) + turns[i].late < call.Deadline()
            && log[i].endpoint == Endpoint(call, log[..i])
  {
    EndpointIs(call, turns, log[..i]);
  }

  /** The attempt at place `i` follows from the turn exactly if it obeys the law. */
  lemma FollowsIff(call: Call, turns: seq<Turn>, log: seq<Attempt>, i: nat)
    requires i < |log| <= |turns| && Lawful(call, turns, log[..i])
    ensures Follows(call, log[..i], turns[i], log[i]) <==> AttemptLaw(call, turns, log, i)
  {
    StartsIff(call, turns, log, i);
    WaitsIff(turns[i].reply);
    SleepsCounted(log, i);
    if log[i].after.Slept? {
      SleepLawIff(call, turns[i], log[i], SleptBefore(log, i));
    }
  }

  lemma AttemptLawEarlier(call: Call, turns: seq<Turn>, log: seq<Attempt>, n: nat, i: nat)
    requires i < n <= |log| <= |turns|
    ensures AttemptLaw(call, turns, log[..n], i) <==> AttemptLaw(call, turns, log, i)
  {
    assert SleptPlaces(log[..n], i) == SleptPlaces(log, i);
  }

  /** A log is lawful if and only if every attempt in it obeys the law. */
  lemma {:induction false} LawfulIff(call: Call, turns: seq<Turn>, log: seq<Attempt>)
    requires |log| <= |turns|
    ensures Lawful(call, turns, log) <==> forall i: nat :: i < |log| ==> AttemptLaw(call, turns, log, i)
    decreases |log|
  {
    if log != [] {
      var n := |log| - 1;
      LawfulIff(call, turns, log[..n]);
      forall i: nat | i < n
        ensures AttemptLaw(call, turns, log[..n], i) <==> AttemptLaw(call, turns, log, i)
      {
        AttemptLawEarlier(call, turns, log, n, i);
      }
      if Lawful(call, turns, log[..n]) {
        FollowsIff(call, turns, log, n);
      }
    }
  }

  /** How a call comes back, told by the last reply, the last draw and the clock. */
  ghost predicate EndLaw(call: Call, turns: seq<Turn>, log: seq<Attempt>, end: End)
    requires |log| <= |turns|
  {
    var over := log != [] && log[|log| - 1].after.Ended?;
    match end
    case StillTrying => !over && |log| == |turns|
    case OutOfTime => !over && |log| < |turns| && Clock(call, log) + turns[|log|].late >= call.start + call.budget
    case Answered => over && turns[|log| - 1].reply.Response?
    case Refused(code) => over && turns[|log| - 1].reply.Failed? && turns[|log| - 1].reply.code == code && code.OtherCode?
    case BadRedirect => over && turns[|log| - 1].reply.Failed? && turns[|log| - 1].reply.code.Unavailable? && turns[|log| - 1].reply.leader.Malformed?
    case NoRandomness => over && TryAgain(turns[|log| - 1].reply) && turns[|log| - 1].draw.None?
  }

  lemma EndsIff(call: Call, turns: seq<Turn>, log: seq<Attempt>, end: End)
    requires |log| <= |turns|
    ensures EndsWith(call, turns, log, end) <==> EndLaw(call, turns, log, end)
  {
    if log != [] {
      WaitsIff(turns[|log| - 1].reply);
    }
  }

  /** A lawful log ends in exactly one way. */
  lemma EndsOnce(call: Call, turns: seq<Turn>, log: seq<Attempt>, end: End, end': End)
    requires |log| <= |turns| && Lawful(call, turns, log)
    requires EndsWith(call, turns, log, end) && EndsWith(call, turns, log, end')
    ensures end == end'
  {
  }
}
