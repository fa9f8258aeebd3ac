/** Waiting for a CI/CD tracker: a deadline-bounded loop that forgives a few failures in a row. */
module Polling {
  import opened Collections

  // --- What a poll can answer -------------------------------------------------

  /** A tracker that was read, a request that failed, or a failure already settled and named. */
  datatype Answer =
    | Progress(status: string)
    | Failure(http: Option<int>, network: bool)
    | Settled

  const SUCCESSFUL := "2"
  const TERMINAL_STATUSES := {"2", "3", "4"}
  const MAX_POLL_FAILURES := 3

  /** No response at all, or an answer that asks for another try. */
  predicate IsTransient(a: Answer) {
    && a.Failure?
    && if a.http.None? then a.network
       else a.http.value == 408 || a.http.value == 425 || a.http.value == 429 || a.http.value >= 500
  }

  datatype Outcome = Finished(status: string) | TimedOut | Refused | GaveUp | Rethrown

  /** One round: what was answered, and whether the deadline had passed when the loop looked. */
  datatype Round = Round(answer: Answer, late: bool)

  /** Transient failures in a row at the end of a history. */
  function FailuresInARow(rounds: seq<Round>): (n: nat)
    ensures n <= |rounds|
  {
    if rounds == [] || !IsTransient(rounds[|rounds| - 1].answer) then 0
    else 1 + FailuresInARow(rounds[..|rounds| - 1])
  }

  /** What one more round means after `failures` transient failures in a row, this one included. */
  function Judge(last: Round, failures: nat): Option<Outcome> {
    match last.answer
    case Settled => Some(Rethrown)
    case Progress(status) =>
      if status in TERMINAL_STATUSES then Some(Finished(status)) else if last.late then Some(TimedOut) else None
    case Failure(_, _) =>
      if !IsTransient(last.answer) then Some(Refused)
      else if last.late then Some(TimedOut)
      else if failures >= MAX_POLL_FAILURES then Some(GaveUp)
      else None
  }

  /** How the loop ends with this history, if it does. */
  function EndsWith(rounds: seq<Round>): Option<Outcome>
    requires rounds != []
  {
    Judge(rounds[|rounds| - 1], FailuresInARow(rounds))
  }

  /** A history of the loop: it went on after every round but the last, and ended as it did. */
  ghost predicate History(rounds: seq<Round>, outcome: Outcome) {
    && rounds != []
    && EndsWith(rounds) == Some(outcome)
    && (forall i :: 0 < i < |rounds| ==> EndsWith(rounds[..i]) == None)
  }

  // --- What a history says ----------------------------------------------------

  /** A request that got no answer over the network, or one of the answers that ask for another try. */
  ghost predicate WorthAnotherTry(a: Answer) {
    match a
    case Failure(Some(status), _) => status in {408, 425, 429} || status >= 500
    case Failure(None, network) => network
    case _ => false
  }

  /** Round `i` is the third failure in a row, or a later one. */
  ghost predicate ThirdInARow(rounds: seq<Round>, i: nat)
    requires i < |rounds|
  {
    i >= 2 && forall k :: i - 2 <= k <= i ==> WorthAnotherTry(rounds[k].answer)
  }

  /** Nothing in round `i` ends the wait. */
  ghost predicate LeavesOpen(rounds: seq<Round>, i: nat)
    requires i < |rounds|
  {
    var a := rounds[i].answer;
    && !rounds[i].late && !ThirdInARow(rounds, i)
    && ((a.Progress? && a.status != "2" && a.status != "3" && a.status != "4") || WorthAnotherTry(a))
  }

  /** What the last round means when it ends the wait. */
  ghost predicate Ends(rounds: seq<Round>, outcome: Outcome)
    requires rounds != []
  {
    var i := |rounds| - 1;
    var a := rounds[i].answer;
    match outcome
    case Finished(status) => a == Progress(status) && status in {"2", "3", "4"}
    case Rethrown => a.Settled?
    case Refused => a.Failure? && !WorthAnotherTry(a)
    case TimedOut =>
      rounds[i].late && (WorthAnotherTry(a) || (a.Progress? && a.status != "2" && a.status != "3" && a.status != "4"))
    case GaveUp => !rounds[i].late && ThirdInARow(rounds, i)
  }

  lemma TransientExactlyWhen(a: Answer)
    ensures IsTransient(a) <==> WorthAnotherTry(a)
  {}

  /** Counting failures in a row, as far as it matters. */
  lemma {:induction false} ThreeInARow(rounds: seq<Round>)
    requires rounds != []
    ensures FailuresInARow(rounds) >= 3 <==> ThirdInARow(rounds, |rounds| - 1)
  {
    var n := |rounds|;
    TransientExactlyWhen(rounds[n - 1].answer);
    if n >= 3 {
      var one, two := rounds[..n - 1], rounds[..n - 2];
      assert one[n - 2] == rounds[n - 2] && one[..n - 2] == two && two[n - 3] == rounds[n - 3];
      TransientExactlyWhen(rounds[n - 2].answer);
      TransientExactlyWhen(rounds[n - 3].answer);
      assert FailuresInARow(two) >= 1 <==> IsTransient(two[n - 3].answer);
      assert FailuresInARow(one) >= 2 <==> IsTransient(one[n - 2].answer) && FailuresInARow(two) >= 1;
    }
  }

  lemma {:induction false} EndsExactlyWhen(rounds: seq<Round>, outcome: Outcome)
    requires rounds != []
    ensures EndsWith(rounds) == Some(outcome) <==> Ends(rounds, outcome)
    ensures EndsWith(rounds) == None <==> LeavesOpen(rounds, |rounds| - 1)
  {
    hide FailuresInARow, IsTransient, ThirdInARow;
    TransientExactlyWhen(rounds[|rounds| - 1].answer);
    ThreeInARow(rounds);
    if ThirdInARow(rounds, |rounds| - 1) { OneOfThree(rounds); }
    assert TERMINAL_STATUSES == {"2", "3", "4"};
  }

  lemma OneOfThree(rounds: seq<Round>)
    requires rounds != [] && ThirdInARow(rounds, |rounds| - 1)
    ensures WorthAnotherTry(rounds[|rounds| - 1].answer)
  {}

  /**
    A wait went on after every round but its last and ended there: at a terminal status,
    a settled or permanent failure, the deadline, or the third transient failure in a
    row, whichever the round shows first.
   */
  lemma {:induction false} HistoryExactlyWhen(rounds: seq<Round>, outcome: Outcome)
    ensures History(rounds, outcome) <==>
      && rounds != [] && Ends(rounds, outcome)
      && forall i :: 0 <= i < |rounds| - 1 ==> LeavesOpen(rounds, i)
  {
    hide EndsWith, Ends, LeavesOpen;
    if rounds != [] {
      EndsExactlyWhen(rounds, outcome);
      forall i | 0 <= i < |rounds| - 1
        ensures EndsWith(rounds[..i + 1]) == None <==> LeavesOpen(rounds, i)
      {
        EndsExactlyWhen(rounds[..i + 1], outcome);
        SamePrefix(rounds, i);
      }
      forall i | 0 < i < |rounds|
        ensures EndsWith(rounds[..i]) == None <==> LeavesOpen(rounds, i - 1)
      {
        assert EndsWith(rounds[..i - 1 + 1]) == None <==> LeavesOpen(rounds, i - 1);
      }
    }
  }

  lemma SamePrefix(rounds: seq<Round>, i: nat)
    requires i < |rounds|
    ensures LeavesOpen(rounds[..i + 1], i) <==> LeavesOpen(rounds, i)
  {
    assert forall k :: 0 <= k <= i ==> rounds[..i + 1][k] == rounds[k];
  }

  // --- The clock and the instance ---------------------------------------------

  /** The clock never goes back, and a sleep of d takes at least d. */
  class World {
    var clock: real
    var moments: nat
    const lag: nat -> real
    const answers: nat -> Answer
    ghost var polls: nat
    ghost var sleeps: seq<(real, real)>

    constructor (lag: nat -> real, answers: nat -> Answer, start: real)
      requires forall k :: lag(k) >= 0.0
      ensures Valid() && clock == start && polls == 0 && sleeps == []
      ensures this.answers == answers
    {
      this.lag, this.answers := lag, answers;
      clock, moments, polls, sleeps := start, 0, 0, [];
    }

    ghost predicate Valid()
      reads this
    {
      forall k :: lag(k) >= 0.0
    }

    method Now() returns (t: real)
      requires Valid()
      modifies this`clock, this`moments
      ensures Valid() && t == clock >= old(clock)
    {
      Pass(0.0);
      t := clock;
    }

    method Send(n: nat) returns (a: Answer)
      requires Valid() && n == polls
      modifies this`clock, this`moments, this`polls
      ensures Valid() && a == answers(n) && polls == n + 1 && clock >= old(clock)
    {
      Pass(0.0);
      polls := n + 1;
      a := answers(n);
    }

    method Sleep(d: real)
      requires Valid() && d >= 0.0
      modifies this`clock, this`moments, this`sleeps
      ensures Valid() && clock >= old(clock) + d && sleeps == old(sleeps) + [(old(clock), d)]
    {
      sleeps := sleeps + [(clock, d)];
      Pass(d);
    }

    method Pass(d: real)
      requires Valid() && d >= 0.0
      modifies this`clock, this`moments
      ensures Valid() && clock >= old(clock) + d
    {
      clock := clock + d + lag(moments);
      moments := moments + 1;
    }
  }

  // --- The bound --------------------------------------------------------------

  function Ceiling(x: real): int {
    -((-x).Floor)
  }

  /** The most polls a wait can take. */
  function MaxPolls(pollMs: real, timeoutMs: real): int
    requires pollMs > 0.0
  {
    Ceiling(timeoutMs / pollMs) + 1
  }

  /** A round that went on started before the deadline, which leaves room for one more. */
  lemma {:induction false} RoomForOneMore(k: nat, pollMs: real, timeoutMs: real)
    requires pollMs > 0.0 && Paid(k, pollMs) < timeoutMs
    ensures k + 1 < MaxPolls(pollMs, timeoutMs)
    ensures Paid(k + 1, pollMs) == Paid(k, pollMs) + pollMs
  {
    var x := timeoutMs / pollMs;
    assert x * pollMs == timeoutMs;
    assert (k as real) < x by {
      if x <= k as real {
        Scales(x, k as real, pollMs);
      }
    }
  }

  lemma Scales(a: real, b: real, c: real)
    requires a <= b && c > 0.0
    ensures a * c <= b * c
  {}

  /** No sleep runs past the deadline. */
  ghost predicate WithinDeadline(sleeps: seq<(real, real)>, deadline: real) {
    forall i :: 0 <= i < |sleeps| ==> sleeps[i].1 == 0.0 || sleeps[i].0 + sleeps[i].1 <= deadline
  }

  /**
    Polls until a terminal status, a settled or permanent failure, the third transient
    failure in a row, or the deadline.
   */
  method PollProgress(world: World, pollMs: real, timeoutMs: real)
    returns (outcome: Outcome, ghost rounds: seq<Round>, ghost startedAt: real)
    requires world.Valid() && pollMs > 0.0 && timeoutMs > 0.0 && world.polls == 0 && world.sleeps == []
    modifies world
    ensures startedAt >= old(world.clock)
    ensures History(rounds, outcome)
    ensures |rounds| == world.polls <= MaxPolls(pollMs, timeoutMs)
    ensures forall i :: 0 <= i < |rounds| ==> rounds[i].answer == world.answers(i)
    ensures |world.sleeps| == |rounds| - 1 && WithinDeadline(world.sleeps, startedAt + timeoutMs)
    ensures outcome.TimedOut? ==> world.clock - startedAt >= timeoutMs
  {
    hide History, EndsWith, FailuresInARow, MaxPolls, Paid;
    var start := world.Now();
    startedAt := start;
    var failures, n := 0, 0;
    rounds := [];
    StartBound(pollMs, timeoutMs);
    while true
      invariant world.Valid() && world.polls == n == |rounds| == |world.sleeps|
      invariant n < MaxPolls(pollMs, timeoutMs)
      invariant world.clock - start >= timeoutMs || world.clock - start >= Paid(n, pollMs)
      invariant WithinDeadline(world.sleeps, start + timeoutMs)
      invariant forall i :: 0 <= i < n ==> rounds[i].answer == world.answers(i)
      invariant GoneOn(rounds) && failures == FailuresInARow(rounds)
      decreases MaxPolls(pollMs, timeoutMs) - n
    {
      var answer := world.Send(n);
      n := n + 1;
      ghost var before := rounds;
      rounds := before + [Round(answer, false)];
      RoundCounts(before, Round(answer, false));
      if answer.Settled? {
        return Rethrown, rounds, startedAt;
      }
      if answer.Failure? {
        failures := failures + 1;
        if !IsTransient(answer) {
          return Refused, rounds, startedAt;
        }
      } else {
        failures := 0;
        if answer.status in TERMINAL_STATUSES {
          return Finished(answer.status), rounds, startedAt;
        }
      }
      var checked := world.Now();
      if checked - start >= timeoutMs {
        rounds := before + [Round(answer, true)];
        RoundCounts(before, Round(answer, true));
        return TimedOut, rounds, startedAt;
      }
      if failures >= MAX_POLL_FAILURES {
        return GaveUp, rounds, startedAt;
      }
      RoomForOneMore(n - 1, pollMs, timeoutMs);
      var now := world.Now();
      var left := timeoutMs - (now - start);
      var shorter := if pollMs < left then pollMs else left;
      world.Sleep(if shorter > 0.0 then shorter else 0.0);
    }
  }

  /** How long `k` full pauses take. */
  ghost function Paid(k: nat, pollMs: real): real {
    k as real * pollMs
  }

  ghost predicate GoneOn(rounds: seq<Round>) {
    forall i :: 0 < i <= |rounds| ==> EndsWith(rounds[..i]) == None
  }

  /** One more round: what it does to the count, and whether the history ends or goes on. */
  lemma {:induction false} RoundCounts(before: seq<Round>, last: Round)
    requires GoneOn(before)
    ensures var rounds := before + [last];
      var failures := if IsTransient(last.answer) then FailuresInARow(before) + 1 else 0;
      && FailuresInARow(rounds) == failures
      && (Judge(last, failures).Some? ==> History(rounds, Judge(last, failures).value))
      && (Judge(last, failures).None? ==> GoneOn(rounds))
  {
    hide Judge, IsTransient;
    var rounds := before + [last];
    assert rounds[..|before|] == before && rounds[..|rounds|] == rounds;
    assert forall i :: 0 < i <= |before| ==> rounds[..i] == before[..i];
  }

  lemma StartBound(pollMs: real, timeoutMs: real)
    requires pollMs > 0.0 && timeoutMs > 0.0
    ensures MaxPolls(pollMs, timeoutMs) > 0 && Paid(0, pollMs) == 0.0
    ensures GoneOn([]) && FailuresInARow([]) == 0
  {}
}
