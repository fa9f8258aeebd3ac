/**
  The watcher itself: the module variables of the dev-mode watcher as fields, its
  handlers and the segments of its drain between two awaits as methods. Each method
  is proved to perform exactly the matching step of WatcherSpec.
 */
module DevWatcher {
  import opened Collections
  import opened WatcherSpec

  /** Some file among `contexts` claims this field of this record. */
  ghost predicate Claims(contexts: seq<Context>, key: (Record, string), path: Path) {
    exists i :: 0 <= i < |contexts|
      && contexts[i].record == key.0 && contexts[i].field == key.1 && contexts[i].path == path
  }

  ghost predicate Indexed(contexts: seq<Context>, claimants: map<(Record, string), set<Path>>) {
    && (forall k :: k in claimants ==> forall p :: p in claimants[k] <==> Claims(contexts, k, p))
    && (forall k, p :: Claims(contexts, k, p) ==> k in claimants)
  }

  /** The file each record field is pushed from. */
  type Fields = map<(Record, string), Path>

  /** Every claimed field has a file, one that claims it. */
  ghost predicate Filled(contexts: seq<Context>, fields: Fields) {
    && (forall k :: k in fields ==> Claims(contexts, k, fields[k]))
    && (forall k, p :: Claims(contexts, k, p) ==> k in fields)
  }

  /**
    Groups a batch by record, in first-seen order, each record with the files of its
    fields; None when two different files claim one field of one record.
   */
  method GroupAppFiles(contexts: seq<Context>) returns (records: Option<seq<Record>>, fields: Fields)
    ensures records.None? <==> ClaimedTwice(contexts)
    ensures records.Some? ==> records.value == Buildables(contexts)
    ensures records.Some? ==> forall k, p :: Claims(contexts, k, p) <==> k in fields && fields[k] == p
  {
    hide ClaimedTwice, Indexed, Filled, Buildables, Conflict, Claims;
    NothingGrouped();
    var combined: seq<Record> := [];
    var claimants: map<(Record, string), set<Path>> := map[];
    var ambiguous := false;
    fields := map[];
    for n := 0 to |contexts|
      invariant combined == Buildables(contexts[..n])
      invariant Indexed(contexts[..n], claimants)
      invariant ambiguous == ClaimedTwice(contexts[..n])
      invariant Filled(contexts[..n], fields)
    {
      BuildablesOneMore(contexts, n);
      if contexts[n].record !in combined {
        combined := combined + [contexts[n].record];
      }
      var conflict;
      claimants, conflict := ClaimField(contexts, n, claimants);
      ambiguous := ambiguous || conflict;
      FillOneMore(contexts, n, fields);
      fields := fields[(contexts[n].record, contexts[n].field) := contexts[n].path];
    }
    assert contexts[..|contexts|] == contexts;
    if ambiguous { return None, fields; }
    OneFileEach(contexts, fields);
    records := Some(combined);
  }

  lemma NothingGrouped()
    ensures !ClaimedTwice([]) && Indexed([], map[]) && Filled([], map[]) && Buildables([]) == []
  {}

  lemma FillOneMore(contexts: seq<Context>, n: nat, fields: Fields)
    requires n < |contexts| && Filled(contexts[..n], fields)
    ensures Filled(contexts[..n + 1], fields[(contexts[n].record, contexts[n].field) := contexts[n].path])
  {
    hide Claims;
    var after := fields[(contexts[n].record, contexts[n].field) := contexts[n].path];
    forall k | k in after ensures Claims(contexts[..n + 1], k, after[k]) {
      ClaimOneMore(contexts, n, k, after[k]);
    }
    var upto := contexts[..n + 1];
    forall k, p | Claims(upto, k, p) ensures k in after {
      ClaimOneMore(contexts, n, k, p);
    }
  }

  /** Without a conflict, the file that fills a field is the only one that claims it. */
  lemma OneFileEach(contexts: seq<Context>, fields: Fields)
    requires Filled(contexts, fields) && !ClaimedTwice(contexts)
    ensures forall k, p :: Claims(contexts, k, p) <==> k in fields && fields[k] == p
  {
    forall k, p | Claims(contexts, k, p) ensures fields[k] == p {
      var i :| 0 <= i < |contexts| && contexts[i].record == k.0 && contexts[i].field == k.1 && contexts[i].path == p;
      var j :| 0 <= j < |contexts| && contexts[j].record == k.0 && contexts[j].field == k.1
        && contexts[j].path == fields[k];
      if p != fields[k] {
        assert Conflict(contexts[i], contexts[j]) && Conflict(contexts[j], contexts[i]);
      }
    }
  }

  /** Records that context `n` claims its field; `conflict` when another file already did. */
  method ClaimField(contexts: seq<Context>, n: nat, claimants: map<(Record, string), set<Path>>)
    returns (after: map<(Record, string), set<Path>>, conflict: bool)
    requires n < |contexts| && Indexed(contexts[..n], claimants)
    ensures Indexed(contexts[..n + 1], after)
    ensures ClaimedTwice(contexts[..n + 1]) == (ClaimedTwice(contexts[..n]) || conflict)
  {
    var cur := contexts[n];
    var key := (cur.record, cur.field);
    var paths := if key in claimants then claimants[key] else {};
    IndexOneMore(contexts, n, claimants);
    ClaimedOneMore(contexts, n, paths);
    conflict := paths - {cur.path} != {};
    after := claimants[key := paths + {cur.path}];
  }

  lemma ClaimOneMore(contexts: seq<Context>, n: nat, k: (Record, string), p: Path)
    requires n < |contexts|
    ensures Claims(contexts[..n + 1], k, p) <==>
      Claims(contexts[..n], k, p) || (k == (contexts[n].record, contexts[n].field) && p == contexts[n].path)
  {
    if Claims(contexts[..n], k, p) {
      var i :| 0 <= i < n && contexts[i].record == k.0 && contexts[i].field == k.1 && contexts[i].path == p;
      assert contexts[..n + 1][i] == contexts[i];
    }
    assert contexts[..n + 1][n] == contexts[n];
  }

  lemma IndexOneMore(contexts: seq<Context>, n: nat, claimants: map<(Record, string), set<Path>>)
    requires n < |contexts| && Indexed(contexts[..n], claimants)
    ensures
      var key := (contexts[n].record, contexts[n].field);
      var paths := if key in claimants then claimants[key] else {};
      && (forall p :: p in paths <==> Claims(contexts[..n], key, p))
      && Indexed(contexts[..n + 1], claimants[key := paths + {contexts[n].path}])
  {
    var key := (contexts[n].record, contexts[n].field);
    var paths := if key in claimants then claimants[key] else {};
    var after := claimants[key := paths + {contexts[n].path}];
    forall k | k in after ensures forall p :: p in after[k] <==> Claims(contexts[..n + 1], k, p) {
      forall p ensures p in after[k] <==> Claims(contexts[..n + 1], k, p) {
        ClaimOneMore(contexts, n, k, p);
      }
    }
    var upto := contexts[..n + 1];
    forall k, p | Claims(upto, k, p) ensures k in after {
      ClaimOneMore(contexts, n, k, p);
    }
  }

  lemma BuildablesOneMore(contexts: seq<Context>, n: nat)
    requires n < |contexts|
    ensures Buildables(contexts[..n + 1]) ==
      (if contexts[n].record in Buildables(contexts[..n]) then Buildables(contexts[..n])
       else Buildables(contexts[..n]) + [contexts[n].record])
  {
    var all := RecordSeq(contexts[..n + 1]);
    assert all[..|all| - 1] == RecordSeq(contexts[..n]);
  }

  lemma ClaimedOneMore(contexts: seq<Context>, n: nat, paths: set<Path>)
    requires n < |contexts|
    requires forall p :: p in paths <==> Claims(contexts[..n], (contexts[n].record, contexts[n].field), p)
    ensures ClaimedTwice(contexts[..n + 1]) == (ClaimedTwice(contexts[..n]) || paths - {contexts[n].path} != {})
  {
    var front, upto := contexts[..n], contexts[..n + 1];
    if p :| p in paths - {contexts[n].path} {
      var j :| 0 <= j < n && front[j].record == contexts[n].record && front[j].field == contexts[n].field
        && front[j].path == p;
      assert Conflict(upto[n], upto[j]);
    }
    if i, j :| 0 <= j < i < |upto| && Conflict(upto[i], upto[j]) {
      if i == n {
        assert front[j] == upto[j] && Claims(front, (contexts[n].record, contexts[n].field), front[j].path);
        assert front[j].path in paths - {contexts[n].path};
      } else {
        assert Conflict(front[i], front[j]);
      }
    }
    if i, j :| 0 <= j < i < |front| && Conflict(front[i], front[j]) {
      assert Conflict(upto[i], upto[j]);
    }
  }

  class Watcher {
    var pushQueue: seq<Path>
    var processing: bool
    var retryTimer: Option<Timer>
    /** The runtime's own record of the retries that are armed. */
    var timers: Timers
    var retryAttempt: nat
    var deletedPaths: set<Path>
    var session: nat
    /** A debounced drain is pending. */
    var debounced: bool
    // The locals of the one suspended drain.
    var pushing: bool
    var drainSession: nat
    var inFlight: seq<Path>
    var pathContexts: seq<Context>
    var buildables: seq<Record>
    var pathsByBuildable: map<Record, seq<Path>>

    ghost function Suspended(): Drain
      reads this
    {
      if !processing then Idle
      else if !pushing then Reloading(inFlight, drainSession)
      else Pushing(inFlight, drainSession, pathContexts)
    }

    ghost function Model(): State
      reads this
    {
      State(pushQueue, deletedPaths, session, retryAttempt, retryTimer, timers, debounced, Suspended())
    }

    ghost predicate Valid()
      reads this
    {
      processing && pushing ==>
        && buildables == Buildables(pathContexts)
        && pathsByBuildable.Keys == Elements(buildables)
        && forall r :: r in pathsByBuildable ==> pathsByBuildable[r] == PathsOf(pathContexts, r)
    }

    constructor ()
      ensures Valid() && Model() == INITIAL
    {
      pushQueue, deletedPaths, session := [], {}, 0;
      processing, pushing, debounced := false, false, false;
      retryTimer, retryAttempt, timers := None, 0, Timers(map[], 0);
    }

    method SetRetryTimeout(delay: nat) returns (timer: Timer)
      modifies `timers
      ensures timer == old(timers).next && timers == SetTimeout(old(timers), delay)
    {
      timer := timers.next;
      timers := Timers(timers.armed[timer := delay], timer + 1);
    }

    method ClearRetryTimeout(timer: Timer)
      modifies `timers
      ensures timers == Disarm(old(timers), timer)
    {
      timers := timers.(armed := timers.armed - {timer});
    }

    method FileChanged(path: Path)
      requires Valid()
      modifies this
      ensures Valid() && Model() == Step(old(Model()), Changed(path))
    {
      deletedPaths := deletedPaths - {path};
      pushQueue := pushQueue + [path];
      debounced := true;
    }

    method FileAdded(path: Path, stray: bool, tracked: bool)
      requires Valid()
      modifies this
      ensures Valid() && Model() == Step(old(Model()), Added(path, stray, tracked))
    {
      deletedPaths := deletedPaths - {path};
      if stray { return; }
      if tracked {
        pushQueue := pushQueue + [path];
        debounced := true;
      }
    }

    method FileUnlinked(path: Path)
      requires Valid()
      modifies this
      ensures Valid() && Model() == Step(old(Model()), Unlinked(path))
    {
      deletedPaths := deletedPaths + {path};
      pushQueue := Without(pushQueue, deletedPaths);
    }

    method StopWatching()
      requires Valid()
      modifies this
      ensures Valid() && Model() == Step(old(Model()), Stopped)
    {
      if retryTimer.Some? {
        ClearRetryTimeout(retryTimer.value);
        retryTimer := None;
      }
      retryAttempt := 0;
      session := session + 1;
      pushQueue := [];
      deletedPaths := {};
    }

    method DebounceElapsed()
      requires Valid() && Enabled(Model(), DebounceFires)
      modifies this
      ensures Valid() && Model() == Step(old(Model()), DebounceFires)
    {
      debounced := false;
      DrainQueue();
    }

    /** An armed timer fires: the runtime forgets it, and its callback runs. */
    method RetryElapsed(timer: Timer)
      requires Valid() && Enabled(Model(), RetryFires(timer))
      modifies this
      ensures Valid() && Model() == Step(old(Model()), RetryFires(timer))
    {
      ClearRetryTimeout(timer);
      retryTimer := None;
      DrainQueue();
    }

    method ArmRetry()
      requires Valid()
      modifies `retryTimer, `retryAttempt, `timers
      ensures Valid() && Model() == ScheduleRetry(old(Model()))
    {
      if retryTimer.Some? { return; }
      var delay := RETRY_BASE_MS * Pow2(retryAttempt);
      if delay > MAX_RETRY_MS { delay := MAX_RETRY_MS; }
      retryAttempt := retryAttempt + 1;
      var timer := SetRetryTimeout(delay);
      retryTimer := Some(timer);
    }

    /** Entry of the drain, up to its first await. */
    method DrainQueue()
      requires Valid()
      modifies this
      ensures Valid() && Model() == StartDrain(old(Model()))
    {
      if processing { return; }
      processing, pushing := true, false;
      drainSession := session;
      inFlight := [];
      NextBatch();
    }

    /** The loop head: the next batch up to the manifest reload, or the end of a full drain. */
    method NextBatch()
      requires processing && !pushing && drainSession == session
      modifies this
      ensures Valid() && Model() == LoopHead(old(Model()))
    {
      if |pushQueue| > 0 {
        inFlight := Dedup(pushQueue);
        pushQueue := [];
      } else {
        retryAttempt := 0;
        if retryTimer.Some? {
          ClearRetryTimeout(retryTimer.value);
          retryTimer := None;
        }
        processing := false;
      }
    }

    /** The manifest reload returned: resolve and group the batch, up to the push. */
    method ReloadReturned(resolve: map<Path, Resolution>)
      requires Valid() && Enabled(Model(), ReloadReturns(resolve))
      modifies this
      ensures Valid() && Model() == Step(old(Model()), ReloadReturns(resolve))
    {
      hide Dedup, Elements, PathsOf, ContextsOf, Buildables, ResolutionThrows, LoopHead, Caught;
      if drainSession != session {
        TurnToSession();
        return;
      }
      var prepared := PrepareBatch(inFlight, resolve);
      if prepared.None? {
        Threw();
        return;
      }
      pathContexts, buildables := prepared.value.0, prepared.value.1;
      pathsByBuildable := IndexPaths(pathContexts);
      pushing := true;
    }

    /** The push returned one result per buildable, in order. */
    method PushReturned(results: seq<PushResult>)
      requires Valid() && Enabled(Model(), PushReturns(results))
      modifies this
      ensures Valid() && Model() == Step(old(Model()), PushReturns(results))
    {
      hide FailedPaths, Buildables, PathsOf, Elements, Dedup, Without, Delay, SetTimeout;
      var failedPaths := CollectFailures(pathContexts, buildables, pathsByBuildable, results);
      if drainSession != session {
        TurnToSession();
        return;
      }
      inFlight := [];
      pushing := false;
      if |failedPaths| > 0 {
        RetryFailed(failedPaths);
        return;
      }
      NextBatch();
    }

    /**
      Stopped while the drain was suspended: its batch is dropped, and the loop goes on
      for the session that runs now.
     */
    method TurnToSession()
      requires processing
      modifies this
      ensures Valid() && Model() == LoopHead(old(Model()))
    {
      inFlight := [];
      pushing := false;
      drainSession := session;
      NextBatch();
    }

    /** The failed paths go back ahead of the queue, and the drain ends with a retry armed. */
    method RetryFailed(failedPaths: seq<Path>)
      modifies this
      ensures Valid() && Model() == ScheduleRetry(Requeue(old(Model()), failedPaths)).(drain := Idle)
    {
      hide Dedup, Without, Delay;
      pushQueue := Dedup(Without(failedPaths, deletedPaths) + pushQueue);
      processing := false;
      ArmRetry();
    }

    /** The drain's catch and finally: an await, the resolution or the grouping threw. */
    method Threw()
      requires Valid() && Enabled(Model(), AwaitThrows)
      modifies this
      ensures Valid() && Model() == Step(old(Model()), AwaitThrows)
    {
      var sameSession := drainSession == session;
      if sameSession && |inFlight| > 0 {
        pushQueue := Dedup(Without(inFlight, deletedPaths) + pushQueue);
      }
      if sameSession || |pushQueue| > 0 {
        ArmRetry();
      }
      processing := false;
    }
  }

  /** The batch's tracked paths with their contexts; None when a resolution throws. */
  method ResolveBatch(batch: seq<Path>, resolve: map<Path, Resolution>) returns (contexts: Option<seq<Context>>)
    requires forall p :: p in batch ==> p in resolve
    ensures contexts.None? <==> exists p :: p in batch && resolve[p].Unresolvable?
    ensures contexts.Some? ==> contexts.value == ContextsOf(batch, resolve)
  {
    var found: seq<Context> := [];
    for n := 0 to |batch|
      invariant found == ContextsOf(batch[..n], resolve)
      invariant forall p :: p in batch[..n] ==> !resolve[p].Unresolvable?
    {
      assert batch[..n + 1][..n] == batch[..n];
      match resolve[batch[n]]
      case Stray =>
      case Untracked =>
      case Tracked(record, field) => found := found + [Context(batch[n], record, field)];
      case Unresolvable => return None;
    }
    assert batch[..|batch|] == batch;
    contexts := Some(found);
  }

  /** The batch resolved and grouped: its contexts and their records; None when either throws. */
  method PrepareBatch(batch: seq<Path>, resolve: map<Path, Resolution>)
    returns (prepared: Option<(seq<Context>, seq<Record>)>)
    requires forall p :: p in batch ==> p in resolve
    ensures prepared.None? <==> ResolutionThrows(batch, resolve)
    ensures prepared.Some? ==>
      prepared.value.0 == ContextsOf(batch, resolve) && prepared.value.1 == Buildables(prepared.value.0)
  {
    hide ContextsOf, Buildables, ClaimedTwice, Claims;
    var resolved := ResolveBatch(batch, resolve);
    if resolved.None? { return None; }
    var grouped, _ := GroupAppFiles(resolved.value);
    prepared := if grouped.None? then None else Some((resolved.value, grouped.value));
  }

  /** The paths of every record whose failed push is worth another try. */
  method CollectFailures(
      contexts: seq<Context>, buildables: seq<Record>, index: map<Record, seq<Path>>, results: seq<PushResult>)
    returns (failedPaths: seq<Path>)
    requires |results| == |buildables| && index.Keys == Elements(buildables)
    requires forall r :: r in index ==> index[r] == PathsOf(contexts, r)
    ensures failedPaths == FailedPaths(contexts, buildables, results)
  {
    failedPaths := [];
    for n := 0 to |results|
      invariant failedPaths == FailedPaths(contexts, buildables[..n], results[..n])
    {
      assert buildables[..n + 1][..n] == buildables[..n] && results[..n + 1][..n] == results[..n];
      assert buildables[n] in index;
      if !results[n].success {
        if results[n].retryable != Some(false) {
          failedPaths := failedPaths + index[buildables[n]];
        }
      }
    }
    assert buildables[..|results|] == buildables && results[..|results|] == results;
  }

  /** The queued paths of each record, in batch order. */
  method IndexPaths(contexts: seq<Context>) returns (index: map<Record, seq<Path>>)
    ensures index.Keys == Elements(Buildables(contexts))
    ensures forall r :: r in index ==> index[r] == PathsOf(contexts, r)
  {
    index := map[];
    for n := 0 to |contexts|
      invariant forall r :: r in index <==> exists i :: 0 <= i < n && contexts[i].record == r
      invariant forall r :: r in index ==> index[r] == PathsOf(contexts[..n], r)
      invariant forall r :: r !in index ==> PathsOf(contexts[..n], r) == []
    {
      assert contexts[..n + 1][..n] == contexts[..n];
      var c := contexts[n];
      if c.record in index {
        index := index[c.record := index[c.record] + [c.path]];
      } else {
        index := index[c.record := [c.path]];
      }
    }
    assert contexts[..|contexts|] == contexts;
    forall r ensures r in index <==> r in Buildables(contexts) {
      if r in Buildables(contexts) { assert r in RecordSeq(contexts); }
      if i :| 0 <= i < |contexts| && contexts[i].record == r { assert RecordSeq(contexts)[i] == r; }
    }
  }
}
