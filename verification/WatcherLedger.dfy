/**
  What the user is owed, kept apart from how the queue works: every change ever
  accepted has an entry, which is waiting, flying in a batch taken after the change
  arrived, or settled for one of the allowed reasons.
 */
module WatcherLedger {
  import opened Collections
  import opened WatcherSpec

  datatype Outcome = Pushed | FailedFinally | Skipped | Deleted | SessionEnded

  datatype Status = Waiting | Flying | Settled(outcome: Outcome)

  datatype Change = Change(path: Path, session: nat, status: Status)

  type Ledger = seq<Change>

  datatype Verdict = Delivered | Final | Retry

  function VerdictOf(r: PushResult): Verdict {
    if r.success then Delivered else if r.retryable == Some(false) then Final else Retry
  }

  /** The paths whose own record was answered with `v`. */
  ghost function PathsAnswered(contexts: seq<Context>, results: seq<PushResult>, v: Verdict): set<Path>
    requires |results| == |Buildables(contexts)|
  {
    set i, k | 0 <= i < |contexts| && 0 <= k < |results|
      && Buildables(contexts)[k] == contexts[i].record && VerdictOf(results[k]) == v
      :: contexts[i].path
  }

  /** Back from a failed batch: what still exists waits again, the rest is settled. */
  function Returned(c: Change, deleted: set<Path>): Status {
    if c.path in deleted then Settled(Deleted) else Waiting
  }

  /** The status of a change once its batch's push has answered. */
  ghost function Answered(c: Change, s: State, results: seq<PushResult>): Status
    requires Enabled(s, PushReturns(results))
  {
    var contexts := s.drain.contexts;
    if !c.status.Flying? then c.status
    else if c.path in PathsAnswered(contexts, results, Delivered) then Settled(Pushed)
    else if c.path in PathsAnswered(contexts, results, Final) then Settled(FailedFinally)
    else if c.path in PathsAnswered(contexts, results, Retry) then Returned(c, s.deleted)
    else Settled(Skipped)
  }

  function Taken(status: Status): Status {
    if status.Waiting? then Flying else status
  }

  /** What an event may do to one change. */
  ghost function Next(c: Change, s: State, e: Event): Status
    requires Enabled(s, e)
  {
    match e
    case Changed(_) => c.status
    case Added(_, _, _) => c.status
    case Unlinked(p) => if c.status.Waiting? && c.path == p then Settled(Deleted) else c.status
    case Stopped => if c.status.Settled? then c.status else Settled(SessionEnded)
    case DebounceFires => if s.drain.Idle? then Taken(c.status) else c.status
    case RetryFires(_) => if s.drain.Idle? then Taken(c.status) else c.status
    case ReloadReturns(resolve) =>
      if s.drain.since != s.session then Taken(c.status)
      else if ResolutionThrows(s.drain.batch, resolve) && c.status.Flying? then Returned(c, s.deleted)
      else c.status
    case PushReturns(results) =>
      if s.drain.since != s.session then Taken(c.status)
      else if PathsAnswered(s.drain.contexts, results, Retry) == {} then Taken(Answered(c, s, results))
      else Answered(c, s, results)
    case AwaitThrows => if c.status.Flying? then Returned(c, s.deleted) else c.status
  }

  /** The path of the change an event brings, if it brings one. */
  function Accepts(e: Event): Option<Path> {
    match e
    case Changed(p) => Some(p)
    case Added(p, stray, tracked) => if !stray && tracked then Some(p) else None
    case _ => None
  }

  ghost function Owe(l: Ledger, s: State, e: Event): (r: Ledger)
    requires Enabled(s, e)
    ensures |l| <= |r| <= |l| + 1
    ensures forall i :: 0 <= i < |l| ==>
      r[i].path == l[i].path && r[i].session == l[i].session && r[i].status == Next(l[i], s, e)
  {
    var kept := seq(|l|, i requires 0 <= i < |l| => l[i].(status := Next(l[i], s, e)));
    match Accepts(e)
    case None => kept
    case Some(p) => kept + [Change(p, s.session, Waiting)]
  }

  ghost predicate Has(l: Ledger, path: Path, status: Status) {
    exists i :: 0 <= i < |l| && l[i].path == path && l[i].status == status
  }

  /** The queue holds exactly the waiting changes' paths, the batch exactly the flying ones'. */
  ghost predicate Faithful(s: State, l: Ledger) {
    && (forall p :: p in s.queue <==> Has(l, p, Waiting))
    && (s.drain.Idle? || s.drain.since != s.session ==> forall p :: !Has(l, p, Flying))
    && (!s.drain.Idle? && s.drain.since == s.session ==> forall p :: p in s.drain.batch <==> Has(l, p, Flying))
  }

  /** Nothing unsettled belongs to an earlier session, and nothing queued was deleted. */
  ghost predicate Isolated(s: State, l: Ledger) {
    && (forall i :: 0 <= i < |l| && !l[i].status.Settled? ==> l[i].session == s.session)
    && (forall p :: p in s.queue ==> p !in s.deleted)
  }

  /** Work queued is work somebody will drive. */
  predicate NeverStalls(s: State) {
    s.queue != [] ==> !s.drain.Idle? || s.debounce || s.timers.armed != map[]
  }

  /** The variable remembers exactly what is armed, so at most one retry is. */
  predicate OneTimer(s: State) {
    && s.timers.armed.Keys == (if s.timer.Some? then {s.timer.value} else {})
    && forall t :: t in s.timers.armed ==> t < s.timers.next
  }

  predicate BackoffBounded(s: State) {
    forall t :: t in s.timers.armed ==>
      && s.attempt >= 1 && s.timers.armed[t] == Delay(s.attempt - 1)
      && RETRY_BASE_MS <= s.timers.armed[t] <= MAX_RETRY_MS
  }

  ghost predicate BatchWellFormed(s: State) {
    match s.drain
    case Idle => true
    case Reloading(batch, since) => Distinct(batch) && batch != [] && since <= s.session
    case Pushing(batch, since, contexts) =>
      && Distinct(batch) && batch != [] && since <= s.session
      && (forall c :: c in contexts ==> c.path in batch)
      && (forall i, j :: 0 <= i < j < |contexts| ==> contexts[i].path != contexts[j].path)
  }

  ghost predicate Inv(s: State, l: Ledger) {
    && Faithful(s, l) && Isolated(s, l)
    && NeverStalls(s) && OneTimer(s) && BackoffBounded(s) && BatchWellFormed(s)
  }
}
