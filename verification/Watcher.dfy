/**
  The push queue of `dev` mode as a machine of atomic steps. Every `await` of the
  drain is a point where file events, timers and a stop can land, so a drain that
  is suspended is part of the state.
 */
module WatcherSpec {
  import opened Collections

  const RETRY_BASE_MS: nat := 500
  const MAX_RETRY_MS: nat := 30000

  type Path = string

  datatype Record = Record(table: string, sysId: string)

  /** A queued path the manifest resolved. */
  datatype Context = Context(path: Path, record: Record, field: string)

  /** What resolving one queued path answers; `Unresolvable` throws. */
  datatype Resolution = Stray | Untracked | Unresolvable | Tracked(record: Record, field: string)

  datatype PushResult = PushResult(success: bool, retryable: Option<bool>)

  /** Where the drain is suspended. `since` is the session its batch was taken in. */
  datatype Drain =
    | Idle
    | Reloading(batch: seq<Path>, since: nat)
    | Pushing(batch: seq<Path>, since: nat, contexts: seq<Context>)

  /** A handle as `setTimeout` returns it. */
  type Timer = nat

  /** The retry timers the runtime holds, each with its delay; a handle is never given twice. */
  datatype Timers = Timers(armed: map<Timer, nat>, next: Timer)

  /** `timer` is the variable that remembers a retry; `timers` is what is really armed. */
  datatype State = State(
    queue: seq<Path>,
    deleted: set<Path>,
    session: nat,
    attempt: nat,
    timer: Option<Timer>,
    timers: Timers,
    debounce: bool,
    drain: Drain)

  const INITIAL := State([], {}, 0, 0, None, Timers(map[], 0), false, Idle)

  datatype Event =
    | Changed(path: Path)
    | Added(path: Path, stray: bool, tracked: bool)
    | Unlinked(path: Path)
    | Stopped
    | DebounceFires
    | RetryFires(timer: Timer)
    | ReloadReturns(resolve: map<Path, Resolution>)
    | PushReturns(results: seq<PushResult>)
    | AwaitThrows

  function Pow2(n: nat): (r: nat)
    ensures r >= 1
  {
    if n == 0 then 1 else 2 * Pow2(n - 1)
  }

  function Delay(attempt: nat): nat {
    var raw := RETRY_BASE_MS * Pow2(attempt);
    if raw < MAX_RETRY_MS then raw else MAX_RETRY_MS
  }

  function SetTimeout(timers: Timers, delay: nat): Timers {
    Timers(timers.armed[timers.next := delay], timers.next + 1)
  }

  /** What clearing a timeout leaves, and what its firing does. */
  function Disarm(timers: Timers, timer: Timer): Timers {
    timers.(armed := timers.armed - {timer})
  }

  function ScheduleRetry(s: State): State {
    if s.timer.Some? then s
    else
      s.(timer := Some(s.timers.next), timers := SetTimeout(s.timers, Delay(s.attempt)), attempt := s.attempt + 1)
  }

  function CancelRetry(s: State): State {
    if s.timer.Some? then s.(timer := None, timers := Disarm(s.timers, s.timer.value)) else s
  }

  /** The head of the drain's loop: take the whole queue, or finish. */
  function LoopHead(s: State): State {
    if s.queue == [] then CancelRetry(s).(attempt := 0, drain := Idle)
    else s.(queue := [], drain := Reloading(Dedup(s.queue), s.session))
  }

  function StartDrain(s: State): State {
    if s.drain.Idle? then LoopHead(s) else s
  }

  /** The failed paths go ahead of whatever arrived since; deleted ones do not come back. */
  function Requeue(s: State, paths: seq<Path>): State {
    s.(queue := Dedup(Without(paths, s.deleted) + s.queue))
  }

  /** The drain's `catch`: the batch is requeued only within its own session. */
  function Caught(s: State): State
    requires !s.drain.Idle?
  {
    var same := s.drain.since == s.session;
    var s1 := if same && s.drain.batch != [] then Requeue(s, s.drain.batch) else s;
    var s2 := if same || s1.queue != [] then ScheduleRetry(s1) else s1;
    s2.(drain := Idle)
  }

  /** `pathContexts`: the batch's tracked paths, in batch order. */
  function ContextsOf(batch: seq<Path>, resolve: map<Path, Resolution>): seq<Context>
    requires forall p :: p in batch ==> p in resolve
  {
    if batch == [] then []
    else
      var front := ContextsOf(batch[..|batch| - 1], resolve);
      var p := batch[|batch| - 1];
      if resolve[p].Tracked? then front + [Context(p, resolve[p].record, resolve[p].field)] else front
  }

  predicate Conflict(c: Context, d: Context) {
    c.record == d.record && c.field == d.field && c.path != d.path
  }

  /** Some record field is claimed by two files of the batch. */
  predicate ClaimedTwice(contexts: seq<Context>) {
    exists i, j :: 0 <= j < i < |contexts| && Conflict(contexts[i], contexts[j])
  }

  /** Some path cannot be resolved at all, or two files of the batch claim one field. */
  predicate ResolutionThrows(batch: seq<Path>, resolve: map<Path, Resolution>)
    requires forall p :: p in batch ==> p in resolve
  {
    || (exists p :: p in batch && resolve[p].Unresolvable?)
    || ClaimedTwice(ContextsOf(batch, resolve))
  }

  function RecordSeq(contexts: seq<Context>): (r: seq<Record>)
    ensures |r| == |contexts|
    ensures forall i :: 0 <= i < |r| ==> r[i] == contexts[i].record
  {
    seq(|contexts|, i requires 0 <= i < |contexts| => contexts[i].record)
  }

  /** The buildables: one per record, in first-seen order. */
  function Buildables(contexts: seq<Context>): seq<Record> {
    Dedup(RecordSeq(contexts))
  }

  /** The paths of one record, in batch order. */
  function PathsOf(contexts: seq<Context>, record: Record): seq<Path> {
    if contexts == [] then []
    else
      var front := PathsOf(contexts[..|contexts| - 1], record);
      var c := contexts[|contexts| - 1];
      if c.record == record then front + [c.path] else front
  }

  predicate FailsForRetry(r: PushResult) {
    !r.success && r.retryable != Some(false)
  }

  /** The paths of every record whose push failed and may succeed later. */
  function FailedPaths(contexts: seq<Context>, records: seq<Record>, results: seq<PushResult>): seq<Path>
    requires |records| == |results|
  {
    if records == [] then []
    else
      var n := |records| - 1;
      FailedPaths(contexts, records[..n], results[..n])
      + if FailsForRetry(results[n]) then PathsOf(contexts, records[n]) else []
  }

  predicate Enabled(s: State, e: Event) {
    match e
    case DebounceFires => s.debounce
    case RetryFires(timer) => timer in s.timers.armed
    case ReloadReturns(resolve) => s.drain.Reloading? && forall p :: p in s.drain.batch ==> p in resolve
    case PushReturns(results) => s.drain.Pushing? && |results| == |Buildables(s.drain.contexts)|
    case AwaitThrows => !s.drain.Idle?
    case _ => true
  }

  function AfterReload(s: State, resolve: map<Path, Resolution>): State
    requires Enabled(s, ReloadReturns(resolve))
  {
    if s.drain.since != s.session then LoopHead(s)
    else if ResolutionThrows(s.drain.batch, resolve) then Caught(s)
    else s.(drain := Pushing(s.drain.batch, s.drain.since, ContextsOf(s.drain.batch, resolve)))
  }

  function AfterPush(s: State, results: seq<PushResult>): State
    requires Enabled(s, PushReturns(results))
  {
    if s.drain.since != s.session then LoopHead(s)
    else
      var failed := FailedPaths(s.drain.contexts, Buildables(s.drain.contexts), results);
      if failed != [] then ScheduleRetry(Requeue(s, failed)).(drain := Idle)
      else LoopHead(s)
  }

  function Enqueue(s: State, path: Path): State {
    s.(queue := s.queue + [path], debounce := true)
  }

  function Step(s: State, e: Event): State
    requires Enabled(s, e)
  {
    match e
    case Changed(p) => Enqueue(s.(deleted := s.deleted - {p}), p)
    case Added(p, stray, tracked) =>
      var s1 := s.(deleted := s.deleted - {p});
      if !stray && tracked then Enqueue(s1, p) else s1
    case Unlinked(p) =>
      var s1 := s.(deleted := s.deleted + {p});
      s1.(queue := Without(s.queue, s1.deleted))
    case Stopped => CancelRetry(s).(queue := [], deleted := {}, session := s.session + 1, attempt := 0)
    case DebounceFires => StartDrain(s.(debounce := false))
    case RetryFires(timer) => StartDrain(s.(timer := None, timers := Disarm(s.timers, timer)))
    case ReloadReturns(resolve) => AfterReload(s, resolve)
    case PushReturns(results) => AfterPush(s, results)
    case AwaitThrows => Caught(s)
  }
}
