/**
  The bounded worker pool: runners sharing one index, stopped by the first error.
  Any interleaving of launches and settlements is a run of this machine.
 */
module WorkerPool {
  import opened Collections

  datatype Answer<R, E> = Done(value: R) | Failed(error: E)

  /**
    `next` is the shared index, `inFlight` the claimed items still awaited, `exited`
    the runners that left their loop.
   */
  datatype State<R, E> = State(
    runners: nat, next: nat, inFlight: set<nat>, launched: nat, exited: nat,
    results: seq<Option<R>>, errors: seq<E>)

  datatype Event = Launches | Settles(item: nat)

  /** How many runners a pool of `n` items gets. */
  function Runners(concurrency: real, n: nat): (r: nat)
    ensures r <= n && (n > 0 ==> r >= 1)
    ensures concurrency >= 1.0 ==> r as real <= concurrency
  {
    var limit := if concurrency.Floor < 1 then 1 else concurrency.Floor;
    if limit < n then limit else n
  }

  function Start<R, E>(concurrency: real, n: nat): State<R, E> {
    State(Runners(concurrency, n), 0, {}, 0, 0, seq(n, _ => None), [])
  }

  predicate Enabled<R, E>(s: State<R, E>, e: Event) {
    match e
    case Launches => s.launched < s.runners
    case Settles(k) => k in s.inFlight && k < |s.results|
  }

  /** The loop head of one runner: claim the next item, or leave. */
  function LoopHead<R, E>(s: State<R, E>): State<R, E> {
    if s.next < |s.results| && s.errors == [] then s.(next := s.next + 1, inFlight := s.inFlight + {s.next})
    else s.(exited := s.exited + 1)
  }

  function Step<R, E>(answer: nat -> Answer<R, E>, s: State<R, E>, e: Event): State<R, E>
    requires Enabled(s, e)
  {
    match e
    case Launches => LoopHead(s.(launched := s.launched + 1))
    case Settles(k) =>
      var s1 := s.(inFlight := s.inFlight - {k});
      match answer(k)
      case Done(value) => LoopHead(s1.(results := s1.results[k := Some(value)]))
      case Failed(error) => LoopHead(s1.(errors := s1.errors + [error]))
  }

  /** `Promise.all` has every runner's end. */
  predicate Ended<R, E>(s: State<R, E>) {
    s.exited == s.runners
  }

  predicate Legal<R, E>(answer: nat -> Answer<R, E>, s: State<R, E>, events: seq<Event>)
    decreases |events|
  {
    events == [] || (Enabled(s, events[0]) && Legal(answer, Step(answer, s, events[0]), events[1..]))
  }

  function After<R, E>(answer: nat -> Answer<R, E>, s: State<R, E>, events: seq<Event>): State<R, E>
    requires Legal(answer, s, events)
    decreases |events|
  {
    if events == [] then s else After(answer, Step(answer, s, events[0]), events[1..])
  }

  /** The items claimed over a run, in order. */
  function Claims<R, E>(answer: nat -> Answer<R, E>, s: State<R, E>, events: seq<Event>): seq<nat>
    requires Legal(answer, s, events)
    decreases |events|
  {
    if events == [] then []
    else
      var s1 := Step(answer, s, events[0]);
      (if s1.next > s.next then [s.next] else []) + Claims(answer, s1, events[1..])
  }

  // --- Every schedule ---------------------------------------------------------

  ghost predicate Inv<R, E>(answer: nat -> Answer<R, E>, s: State<R, E>) {
    && s.next <= |s.results|
    && (s.runners == 0 <==> |s.results| == 0)
    && s.exited <= s.launched <= s.runners
    && |s.inFlight| + s.exited == s.launched
    && (forall k :: k in s.inFlight ==> k < s.next)
    && (forall k :: s.next <= k < |s.results| ==> s.results[k].None?)
    && (forall k :: 0 <= k < s.next && k !in s.inFlight ==>
          match answer(k)
          case Done(value) => s.results[k] == Some(value)
          case Failed(error) => s.results[k].None? && error in s.errors)
    && (forall k :: k in s.inFlight ==> s.results[k].None?)
    && (forall e :: e in s.errors ==> exists k :: 0 <= k < s.next && k !in s.inFlight && answer(k) == Failed(e))
    && |s.errors| <= s.exited
    && (s.exited > 0 ==> s.errors != [] || s.next == |s.results|)
  }

  lemma StartHoldsInv<R, E>(answer: nat -> Answer<R, E>, concurrency: real, n: nat)
    ensures Inv(answer, Start(concurrency, n))
  {}

  lemma StepKeepsInv<R, E>(answer: nat -> Answer<R, E>, s: State<R, E>, e: Event)
    requires Inv(answer, s) && Enabled(s, e)
    ensures Inv(answer, Step(answer, s, e))
  {
    if e.Settles? {
      SettleKeepsInv(answer, s, e.item);
    }
  }

  lemma SettleKeepsInv<R, E>(answer: nat -> Answer<R, E>, s: State<R, E>, k: nat)
    requires Inv(answer, s) && Enabled(s, Settles(k))
    ensures Inv(answer, Step(answer, s, Settles(k)))
  {
    SettledErrors(answer, s, k);
    assert |s.inFlight - {k}| == |s.inFlight| - 1;
    var s1 := Step(answer, s, Settles(k));
    forall j | 0 <= j < s1.next && j !in s1.inFlight
      ensures match answer(j)
        case Done(value) => s1.results[j] == Some(value)
        case Failed(error) => s1.results[j].None? && error in s1.errors
    {
      assert j != k ==> j !in s.inFlight && j < s.next;
    }
  }

  lemma SettledErrors<R, E>(answer: nat -> Answer<R, E>, s: State<R, E>, k: nat)
    requires Inv(answer, s) && Enabled(s, Settles(k))
    ensures var s1 := Step(answer, s, Settles(k));
      forall e :: e in s1.errors ==> exists j :: 0 <= j < s1.next && j !in s1.inFlight && answer(j) == Failed(e)
  {
    var s1 := Step(answer, s, Settles(k));
    assert k < s1.next && k !in s1.inFlight;
    forall e | e in s1.errors
      ensures exists j :: 0 <= j < s1.next && j !in s1.inFlight && answer(j) == Failed(e)
    {
      if e in s.errors {
        var j :| 0 <= j < s.next && j !in s.inFlight && answer(j) == Failed(e);
        assert j !in s1.inFlight;
      } else {
        assert answer(k) == Failed(e);
      }
    }
  }

  /** At every moment of every schedule at most min(limit, n) items are in flight. */
  lemma {:induction false} RunsKeepInv<R, E>(answer: nat -> Answer<R, E>, s: State<R, E>, events: seq<Event>)
    requires Inv(answer, s) && Legal(answer, s, events)
    ensures var end := After(answer, s, events);
      Inv(answer, end) && |end.inFlight| <= end.runners == s.runners && |end.results| == |s.results|
    decreases |events|
  {
    if events != [] {
      StepKeepsInv(answer, s, events[0]);
      var s1 := Step(answer, s, events[0]);
      assert s1.runners == s.runners && |s1.results| == |s.results|;
      hide Inv, Step, Enabled;
      RunsKeepInv(answer, s1, events[1..]);
    }
    var end := After(answer, s, events);
    assert |end.inFlight| <= end.runners;
  }

  /** The items claimed over any schedule are consecutive from the shared index, each claimed once. */
  lemma {:induction false} ClaimsArePrefix<R, E>(answer: nat -> Answer<R, E>, s: State<R, E>, events: seq<Event>)
    requires Legal(answer, s, events)
    ensures var end := After(answer, s, events);
      && s.next <= end.next
      && Claims(answer, s, events) == seq(end.next - s.next, i requires 0 <= i => s.next + i)
    decreases |events|
  {
    if events != [] {
      ClaimsArePrefix(answer, Step(answer, s, events[0]), events[1..]);
    }
  }

  /** Once an item has failed, nothing more is claimed. */
  lemma {:induction false} NothingClaimedAfterAnError<R, E>(
      answer: nat -> Answer<R, E>, s: State<R, E>, events: seq<Event>)
    requires s.errors != [] && Legal(answer, s, events)
    ensures After(answer, s, events).next == s.next && Claims(answer, s, events) == []
    decreases |events|
  {
    if events != [] {
      NothingClaimedAfterAnError(answer, Step(answer, s, events[0]), events[1..]);
    }
  }

  // --- The end of the call ----------------------------------------------------

  /** What the call returns or throws: a lone error as it is, several as one aggregate. */
  datatype Outcome<R, E> = Returns(results: seq<R>) | Throws(error: E) | ThrowsAll(errors: seq<E>)

  function Result<R, E>(s: State<R, E>): Outcome<R, E>
    requires s.errors == [] ==> forall k :: 0 <= k < |s.results| ==> s.results[k].Some?
  {
    if s.errors == [] then Returns(seq(|s.results|, k requires 0 <= k < |s.results| => s.results[k].value))
    else if |s.errors| == 1 then Throws(s.errors[0])
    else ThrowsAll(s.errors)
  }

  /**
    When every runner has left, no claimed work is outstanding. The call returns each
    item's own answer if and only if every item succeeds; otherwise it throws at most
    one error for each runner.
   */
  lemma EndOfCall<R, E>(answer: nat -> Answer<R, E>, s: State<R, E>)
    requires Inv(answer, s) && Ended(s)
    ensures s.inFlight == {}
    ensures s.errors == [] <==> forall k :: 0 <= k < |s.results| ==> answer(k).Done?
    ensures s.errors == [] ==>
      && (forall k :: 0 <= k < |s.results| ==> s.results[k] == Some(answer(k).value))
    ensures |s.errors| <= s.runners
    ensures (Result(s).Returns? <==> forall k :: 0 <= k < |s.results| ==> answer(k).Done?)
      && forall k :: Result(s).Returns? && 0 <= k < |s.results| ==>
           |Result(s).results| == |s.results| && Result(s).results[k] == answer(k).value
    ensures forall e :: Result(s) == Throws(e) <==> s.errors == [e]
    ensures Result(s).ThrowsAll? <==> |s.errors| > 1
    ensures Result(s).ThrowsAll? ==> Result(s).errors == s.errors
  {
    assert |s.inFlight| == 0;
    if s.errors != [] {
      var k :| 0 <= k < s.next && k !in s.inFlight && answer(k) == Failed(s.errors[0]);
    }
  }

  /** A bound on the events still to come. */
  function Fuel<R, E>(s: State<R, E>): int {
    2 * (|s.results| - s.next) + |s.inFlight| + 3 * (s.runners - s.launched)
  }

  /** The pool cannot hang: until it has ended a step is possible, and each step uses up fuel. */
  lemma PoolAdvances<R, E>(answer: nat -> Answer<R, E>, s: State<R, E>, e: Event)
    requires Inv(answer, s)
    ensures Fuel(s) >= 0
    ensures !Ended(s) ==> s.launched < s.runners || exists k :: k in s.inFlight && Enabled(s, Settles(k))
    ensures Enabled(s, e) ==> !Ended(s) && Fuel(Step(answer, s, e)) < Fuel(s)
  {
    if !Ended(s) && s.launched == s.runners {
      assert |s.inFlight| > 0;
      var k :| k in s.inFlight;
      assert Enabled(s, Settles(k));
    }
    if e.Settles? && e.item in s.inFlight {
      assert |s.inFlight - {e.item}| == |s.inFlight| - 1;
    }
  }

  /** However the pool is scheduled, the call is over within 3 * min(limit, n) + 2 * n events. */
  lemma {:induction false} EveryScheduleIsShort<R, E>(
      answer: nat -> Answer<R, E>, s: State<R, E>, events: seq<Event>)
    requires Inv(answer, s) && Legal(answer, s, events)
    ensures |events| <= Fuel(s)
    decreases |events|
  {
    PoolAdvances(answer, s, Launches);
    if events != [] {
      StepKeepsInv(answer, s, events[0]);
      PoolAdvances(answer, s, events[0]);
      EveryScheduleIsShort(answer, Step(answer, s, events[0]), events[1..]);
    }
  }

  /**
    One whole call under any schedule: never more than min(limit, n) items in flight,
    the items claimed are 0, 1, 2, ... with none left out or repeated, and when it is
    over every item has its own answer, unless some item failed.
   */
  lemma {:induction false} WholeCall<R, E>(
      answer: nat -> Answer<R, E>, concurrency: real, n: nat, events: seq<Event>)
    requires Legal(answer, Start(concurrency, n), events)
    ensures var end := After(answer, Start(concurrency, n), events);
      && |end.inFlight| <= Runners(concurrency, n)
      && Claims(answer, Start(concurrency, n), events) == seq(end.next, i requires 0 <= i => i)
      && |events| <= 3 * Runners(concurrency, n) + 2 * n
      && (Ended(end) ==>
           && end.inFlight == {}
           && (end.errors == [] <==> forall k :: 0 <= k < n ==> answer(k).Done?)
           && (end.errors == [] ==>
                |end.results| == n && forall k :: 0 <= k < n ==> end.results[k] == Some(answer(k).value)))
  {
    hide Inv, Legal, After, Claims;
    var start: State<R, E> := Start(concurrency, n);
    StartHoldsInv(answer, concurrency, n);
    RunsKeepInv(answer, start, events);
    ClaimsArePrefix(answer, start, events);
    EveryScheduleIsShort(answer, start, events);
    var end := After(answer, start, events);
    assert Claims(answer, start, events) == seq(end.next, i requires 0 <= i => i);
    if Ended(end) {
      EndOfCall(answer, end);
    }
  }

  // --- The pool over its own variables ----------------------------------------

  class Pool<R, E> {
    const runners: nat
    var nextIndex: nat
    var results: array<Option<R>>
    var errors: seq<E>
    var launched: nat
    var exited: nat
    var inFlight: set<nat>

    ghost function Model(): State<R, E>
      reads this, results
    {
      State(runners, nextIndex, inFlight, launched, exited, results[..], errors)
    }

    constructor (concurrency: real, items: nat)
      ensures Model() == Start(concurrency, items)
      ensures fresh(results)
    {
      runners := Runners(concurrency, items);
      nextIndex := 0;
      results := new Option<R>[items](_ => None);
      errors := [];
      launched := 0;
      exited := 0;
      inFlight := {};
      new;
      assert results[..] == seq(items, _ => None);
    }

    /** A runner starts and runs to its first await. */
    method Launch(ghost answer: nat -> Answer<R, E>)
      requires Enabled(Model(), Launches)
      modifies this
      ensures results == old(results)
      ensures Model() == Step(answer, old(Model()), Launches)
    {
      launched := launched + 1;
      Continue();
    }

    /** The worker of item `current` settles; its runner goes on to its next await. */
    method Settle(answer: nat -> Answer<R, E>, current: nat)
      requires Enabled(Model(), Settles(current))
      modifies this, results
      ensures results == old(results)
      ensures Model() == Step(answer, old(Model()), Settles(current))
    {
      inFlight := inFlight - {current};
      match answer(current)
      case Done(value) => results[current] := Some(value); Continue();
      case Failed(error) => errors := errors + [error]; Continue();
    }

    method Continue()
      modifies this
      ensures results == old(results)
      ensures Model() == LoopHead(old(Model()))
    {
      if nextIndex < results.Length && errors == [] {
        inFlight := inFlight + {nextIndex};
        nextIndex := nextIndex + 1;
      } else {
        exited := exited + 1;
      }
    }

    /** Every runner has left: return the results, or throw what was collected. */
    method Finish(ghost answer: nat -> Answer<R, E>) returns (outcome: Outcome<R, E>)
      requires Inv(answer, Model()) && Ended(Model())
      ensures outcome.Returns? <==> forall k :: 0 <= k < results.Length ==> answer(k).Done?
      ensures outcome.Returns? ==>
        |outcome.results| == results.Length
        && forall k :: 0 <= k < results.Length ==> answer(k) == Done(outcome.results[k])
      ensures outcome.Throws? ==> exists k :: 0 <= k < results.Length && answer(k) == Failed(outcome.error)
    {
      EndOfCall(answer, Model());
      if errors != [] {
        assert errors[0] in Model().errors;
        ghost var k :| 0 <= k < nextIndex && k !in inFlight && answer(k) == Failed(errors[0]);
        return if |errors| == 1 then Throws(errors[0]) else ThrowsAll(errors);
      }
      var values: seq<R> := [];
      for k := 0 to results.Length
        invariant |values| == k
        invariant forall j :: 0 <= j < k ==> answer(j) == Done(values[j])
      {
        assert Model().results[k] == Some(answer(k).value);
        values := values + [results[k].value];
      }
      outcome := Returns(values);
    }
  }
}
