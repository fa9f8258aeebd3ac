/** From a finished tracker and its test result to an exit code, failing closed. */
module AtfVerdict {
  import opened Collections
  import opened Decimal
  import opened JsText
  import opened Polling

  /** A value of a result record, as far as the verdict looks at it. */
  datatype Raw = Missing | Number(n: real) | Text(s: string) | Unreadable

  datatype Verdict = Passed | Failed | NoTests | Unknown

  const PASSING := {"success", "success_with_warnings"}
  const FAILING := {"failure", "error"}

  function Trim(s: string): string {
    TrimRight(TrimLeft(s))
  }

  function NormalizedStatus(v: Raw): Option<string> {
    if v.Text? && Trim(v.s) != "" then Some(Lower(Trim(v.s))) else None
  }

  /** What counts as a stated count: a whole number from zero up, whether it came as a number or spelled out. */
  function StrictCount(v: Raw): Option<nat> {
    match v
    case Number(n) => if n.Floor as real == n && n >= 0.0 then Some(n.Floor) else None
    case Text(s) => Digits(Trim(s))
    case _ => None
  }

  datatype SuiteResult = SuiteResult(status: Raw, failures: Raw, errors: Raw, successes: Raw)

  function SuiteVerdict(r: SuiteResult): Verdict {
    var status := NormalizedStatus(r.status);
    var failed := StrictCount(r.failures);
    var errored := StrictCount(r.errors);
    if (failed.Some? && failed.value > 0) || (errored.Some? && errored.value > 0)
       || (status.Some? && status.value in FAILING) then Failed
    else if status.Some? && status.value in PASSING && failed == Some(0) && errored == Some(0) then
      var succeeded := StrictCount(r.successes);
      if succeeded == Some(0) then NoTests else if succeeded.Some? then Passed else Unknown
    else Unknown
  }

  function TestVerdict(status: Raw): Verdict {
    var s := NormalizedStatus(status);
    if s.Some? && s.value in FAILING then Failed
    else if s.Some? && s.value in PASSING then Passed
    else Unknown
  }

  // --- The exit code ----------------------------------------------------------

  datatype Action = Install | Publish | Rollback | RunSuite | RunTest

  predicate IsAtf(action: Action) {
    action.RunSuite? || action.RunTest?
  }

  /** The result record read for a finished test run: none when there is no link, or the read failed. */
  datatype Result = NotRead | Suite(suite: SuiteResult) | Test(status: Raw)

  /** A finished tracker: its status, whether it links a test result, and whether the link names a record to read. */
  datatype Tracker = Tracker(status: string, linksResult: bool, namesRecord: bool)

  /** Exit code 0, 2, or the errors that become 1. */
  datatype Exit = Success | FailedRun | Incomplete

  function VerdictOf(result: Result): Verdict
    requires !result.NotRead?
  {
    if result.Suite? then SuiteVerdict(result.suite) else TestVerdict(result.status)
  }

  /** The decision at the end of an action. */
  function ExitOf(action: Action, resumed: bool, tracker: Tracker, result: Result): Exit {
    if resumed && !IsAtf(action) && tracker.linksResult then Incomplete
    else if resumed && IsAtf(action) && !tracker.linksResult && tracker.status == SUCCESSFUL then Incomplete
    else if tracker.status != SUCCESSFUL then FailedRun
    else if !IsAtf(action) then Success
    else if result.NotRead? || VerdictOf(result).Unknown? then Incomplete
    else if VerdictOf(result).Passed? then Success
    else FailedRun
  }

  /** The result is the record the action tries, and a tracker that names none has none to read. */
  predicate Reads(action: Action, tracker: Tracker, result: Result) {
    && (tracker.namesRecord ==> tracker.linksResult)
    && (!tracker.namesRecord ==> result.NotRead?)
  }

  // --- What a result record says ----------------------------------------------

  /** The text is the word, in any letters, with any white space around it. */
  ghost predicate Spells(s: string, word: string) {
    exists before, inner, after ::
      s == before + inner + after && Blank(before) && Blank(after) && SameLetters(inner, word)
  }

  /** The value states a count: the number itself, or its digits with any white space around them. */
  ghost predicate States(v: Raw, n: nat) {
    || (v.Number? && v.n == n as real)
    || (v.Text? && exists before, digits, after ::
          && v.s == before + digits + after && Blank(before) && Blank(after)
          && digits != "" && (forall i :: 0 <= i < |digits| ==> IsDigit(digits[i])) && NatOf(digits) == n)
  }

  ghost predicate StatesPassing(status: Raw) {
    status.Text? && (Spells(status.s, "success") || Spells(status.s, "success_with_warnings"))
  }

  ghost predicate StatesFailing(status: Raw) {
    status.Text? && (Spells(status.s, "failure") || Spells(status.s, "error"))
  }

  /** A positive number of failures or errors. */
  ghost predicate StatesSome(v: Raw) {
    exists n: nat :: n >= 1 && States(v, n)
  }

  lemma DigitsAreNoSpace(s: string)
    requires s != "" && forall i :: 0 <= i < |s| ==> IsDigit(s[i])
    ensures IsTrimmed(s)
  {}

  /** Only what states a count is read as one. */
  lemma {:induction false} CountExactlyWhenStated(v: Raw, n: nat)
    ensures StrictCount(v) == Some(n) <==> States(v, n)
  {
    if v.Text? {
      if States(v, n) {
        var before, digits, after :| v.s == before + digits + after && Blank(before) && Blank(after)
          && digits != "" && (forall i :: 0 <= i < |digits| ==> IsDigit(digits[i])) && NatOf(digits) == n;
        DigitsAreNoSpace(digits);
        TrimSpells(before, digits, after);
      }
      var before, inner, after := TrimParts(v.s);
      assert StrictCount(v) == Digits(inner);
    }
  }

  /** A status word is read exactly where the text spells it. */
  lemma {:induction false} StatusExactlyWhenSpelled(v: Raw, word: string)
    requires word != "" && IsTrimmed(word) && !HasCapital(word)
    requires !IsSpace(word[0]) && 'a' <= word[0] <= 'z' && 'a' <= word[|word| - 1] <= 'z'
    ensures NormalizedStatus(v) == Some(word) <==> v.Text? && Spells(v.s, word)
  {
    if v.Text? {
      var before, inner, after := TrimParts(v.s);
      LowerSpells(inner, word);
      if Spells(v.s, word) {
        var b, i, a :| v.s == b + i + a && Blank(b) && Blank(a) && SameLetters(i, word);
        assert !IsSpace(i[0]) && !IsSpace(i[|i| - 1]);
        TrimSpells(b, i, a);
      }
    }
  }

  lemma StatusWords()
    ensures PASSING == {"success", "success_with_warnings"} && FAILING == {"failure", "error"} && PASSING !! FAILING
    ensures forall w :: w in PASSING + FAILING ==> !HasCapital(w)
    ensures forall w :: w in PASSING + FAILING ==> w != "" && 'a' <= w[0] <= 'z' && 'a' <= w[|w| - 1] <= 'z'
  {}

  lemma {:induction false} StatusesRead(v: Raw)
    ensures NormalizedStatus(v).Some? && NormalizedStatus(v).value in PASSING <==> StatesPassing(v)
    ensures NormalizedStatus(v).Some? && NormalizedStatus(v).value in FAILING <==> StatesFailing(v)
  {
    hide NormalizedStatus, Spells;
    StatusWords();
    StatusExactlyWhenSpelled(v, "success");
    StatusExactlyWhenSpelled(v, "success_with_warnings");
    StatusExactlyWhenSpelled(v, "failure");
    StatusExactlyWhenSpelled(v, "error");
  }

  lemma {:induction false} SomeExactlyWhenStated(v: Raw)
    ensures StrictCount(v).Some? && StrictCount(v).value > 0 <==> StatesSome(v)
  {
    hide StrictCount, States;
    if StrictCount(v).Some? {
      CountExactlyWhenStated(v, StrictCount(v).value);
    }
    if n: nat :| n >= 1 && States(v, n) {
      CountExactlyWhenStated(v, n);
    }
  }

  /** The record clearly says that the tests passed. */
  ghost predicate SaysPassed(result: Result) {
    match result
    case NotRead => false
    case Suite(r) => StatesPassing(r.status) && States(r.failures, 0) && States(r.errors, 0) && StatesSome(r.successes)
    case Test(status) => StatesPassing(status)
  }

  /** The record clearly says that tests failed, or that none ran. */
  ghost predicate SaysFailed(result: Result) {
    match result
    case NotRead => false
    case Suite(r) =>
      || StatesSome(r.failures) || StatesSome(r.errors) || StatesFailing(r.status)
      || (StatesPassing(r.status) && States(r.failures, 0) && States(r.errors, 0) && States(r.successes, 0))
    case Test(status) => StatesFailing(status)
  }

  lemma {:induction false} VerdictExactlyWhen(result: Result)
    requires !result.NotRead?
    ensures VerdictOf(result).Passed? <==> SaysPassed(result)
    ensures VerdictOf(result).Failed? || VerdictOf(result).NoTests? <==> SaysFailed(result)
  {
    StatusWords();
    hide NormalizedStatus, StrictCount, States, StatesPassing, StatesFailing, StatesSome;
    if result.Suite? {
      var r := result.suite;
      StatusesRead(r.status);
      CountExactlyWhenStated(r.failures, 0);
      CountExactlyWhenStated(r.errors, 0);
      CountExactlyWhenStated(r.successes, 0);
      SomeExactlyWhenStated(r.failures);
      SomeExactlyWhenStated(r.errors);
      SomeExactlyWhenStated(r.successes);
    } else {
      StatusesRead(result.status);
    }
  }

  // --- What the exit code means -----------------------------------------------

  /** Exit 0 of a test action: a successful tracker that links a result which clearly says the tests passed. */
  lemma {:induction false} SuccessMeansEvidence(action: Action, resumed: bool, tracker: Tracker, result: Result)
    requires Reads(action, tracker, result) && (action.RunSuite? || action.RunTest?)
    ensures ExitOf(action, resumed, tracker, result).Success? <==> tracker.status == "2" && SaysPassed(result)
  {
    hide SuiteVerdict, TestVerdict, SaysPassed, SaysFailed;
    if !result.NotRead? {
      VerdictExactlyWhen(result);
    } else {
      NothingRead(result);
    }
  }

  lemma NothingRead(result: Result)
    requires result.NotRead?
    ensures !SaysPassed(result) && !SaysFailed(result)
  {}

  /**
    Exit 2 of a test action never hides an unknown result: the run itself did not
    succeed, or the result clearly reports a failure or a run of no tests.
   */
  lemma {:induction false} FailureMeansEvidence(action: Action, resumed: bool, tracker: Tracker, result: Result)
    requires Reads(action, tracker, result) && (action.RunSuite? || action.RunTest?)
    ensures ExitOf(action, resumed, tracker, result).FailedRun? <==> tracker.status != "2" || SaysFailed(result)
  {
    hide SuiteVerdict, TestVerdict, SaysPassed, SaysFailed;
    if !result.NotRead? {
      VerdictExactlyWhen(result);
    } else {
      NothingRead(result);
    }
  }

  /** Install, publish and rollback follow the tracker, unless a resumed one turns out to be a test run. */
  lemma AppActionsFollowTheTracker(action: Action, resumed: bool, tracker: Tracker, result: Result)
    requires action.Install? || action.Publish? || action.Rollback?
    ensures var mistaken := resumed && tracker.linksResult;
      && (ExitOf(action, resumed, tracker, result).Success? <==> tracker.status == "2" && !mistaken)
      && (ExitOf(action, resumed, tracker, result).FailedRun? <==> tracker.status != "2" && !mistaken)
  {}

  // --- Reading the result -----------------------------------------------------

  datatype ReadAnswer = Body(result: Result) | ReadFailed(answer: Answer)

  /** Whether the first `n` reads all failed in a way worth another try. */
  ghost predicate AllTransient(answers: nat -> ReadAnswer, n: nat) {
    forall i :: 0 <= i < n ==> answers(i).ReadFailed? && IsTransient(answers(i).answer)
  }

  /** What the reads of a linked result amount to: three tries at most, more than one only after transient failures. */
  ghost predicate ReadAs(namesRecord: bool, answers: nat -> ReadAnswer, result: Result, tries: nat) {
    && tries <= 3
    && (namesRecord <==> tries >= 1)
    && (tries == 0 ==> result.NotRead?)
    && (tries >= 1 ==>
          && AllTransient(answers, tries - 1)
          && if result.NotRead? then
               answers(tries - 1).ReadFailed? && (tries == 3 || !IsTransient(answers(tries - 1).answer))
             else answers(tries - 1) == Body(result))
  }

  /** Reads the linked result, trying again after a transient failure, three times in all. */
  method FetchAtfOutcome(tracker: Tracker, answers: nat -> ReadAnswer) returns (result: Result, tries: nat)
    requires forall i :: answers(i).Body? ==> !answers(i).result.NotRead?
    ensures ReadAs(tracker.namesRecord, answers, result, tries)
  {
    if !tracker.namesRecord { return NotRead, 0; }
    var attempt := 0;
    while true
      invariant attempt < MAX_POLL_FAILURES && AllTransient(answers, attempt)
      decreases MAX_POLL_FAILURES - attempt
    {
      var answer := answers(attempt);
      attempt := attempt + 1;
      if answer.Body? { return answer.result, attempt; }
      if !IsTransient(answer.answer) || attempt >= MAX_POLL_FAILURES { return NotRead, attempt; }
    }
  }

  /**
    One action end to end: the tracker's end is awaited, the result of a test action
    read, and the exit decided; a wait or a read that fails is never a success.
   */
  method RunAction(
      world: World, action: Action, resumed: bool, pollMs: real, timeoutMs: real,
      linksResult: bool, namesRecord: bool, answers: nat -> ReadAnswer)
    returns (exit: Exit, ghost outcome: Outcome, ghost rounds: seq<Round>, ghost result: Result, ghost tries: nat)
    requires world.Valid() && pollMs > 0.0 && timeoutMs > 0.0 && world.polls == 0 && world.sleeps == []
    requires namesRecord ==> linksResult
    requires forall i :: answers(i).Body? ==>
      !answers(i).result.NotRead? && (answers(i).result.Suite? <==> action.RunSuite?)
    modifies world
    ensures History(rounds, outcome) && |rounds| <= MaxPolls(pollMs, timeoutMs)
    ensures forall i :: 0 <= i < |rounds| ==> rounds[i].answer == world.answers(i)
    ensures !outcome.Finished? ==> exit.Incomplete?
    ensures outcome.Finished? && (action.RunSuite? || action.RunTest?) ==> ReadAs(namesRecord, answers, result, tries)
    ensures outcome.Finished? && !IsAtf(action) ==> result.NotRead?
    ensures outcome.Finished? ==>
      exit == ExitOf(action, resumed, Tracker(outcome.status, linksResult, namesRecord), result)
    ensures exit.Success? ==> outcome == Finished("2")
    ensures exit.Success? && (action.RunSuite? || action.RunTest?) ==>
      namesRecord && exists i :: answers(i).Body? && SaysPassed(answers(i).result)
  {
    hide SuiteVerdict, TestVerdict, FailuresInARow, SaysPassed, SaysFailed;
    var waited;
    ghost var startedAt;
    waited, rounds, startedAt := PollProgress(world, pollMs, timeoutMs);
    outcome, result, tries := waited, NotRead, 0;
    if !waited.Finished? { return Incomplete, outcome, rounds, result, tries; }
    var tracker := Tracker(waited.status, linksResult, namesRecord);
    var read := NotRead;
    if IsAtf(action) {
      var attempts;
      read, attempts := FetchAtfOutcome(tracker, answers);
      result, tries := read, attempts;
      if read.NotRead? { NothingRead(read); }
      assert !read.NotRead? ==> answers(attempts - 1).Body? && answers(attempts - 1).result == read;
    }
    exit := ExitOf(action, resumed, tracker, read);
    if IsAtf(action) { SuccessMeansEvidence(action, resumed, tracker, read); }
  }
}
