/** What every step, and so every run, of the push queue keeps. */
module WatcherTheorems {
  import opened Collections
  import opened WatcherSpec
  import opened WatcherLedger

  // --- Grouping and results ---------------------------------------------------

  lemma {:induction false} PathsOfMembers(contexts: seq<Context>, record: Record)
    ensures forall p :: p in PathsOf(contexts, record) <==>
      (exists i :: 0 <= i < |contexts| && contexts[i].record == record && contexts[i].path == p)
  {
    if contexts != [] {
      PathsOfMembers(contexts[..|contexts| - 1], record);
    }
  }

  /** The requeued paths are exactly those whose own record failed in a way a retry may fix. */
  lemma {:induction false} FailedPathsMembers(
      contexts: seq<Context>, records: seq<Record>, results: seq<PushResult>)
    requires |records| == |results|
    ensures forall p :: p in FailedPaths(contexts, records, results) <==>
      (exists i, k :: 0 <= i < |contexts| && 0 <= k < |records|
        && contexts[i].path == p && records[k] == contexts[i].record && FailsForRetry(results[k]))
  {
    if records != [] {
      var n := |records| - 1;
      FailedPathsMembers(contexts, records[..n], results[..n]);
      PathsOfMembers(contexts, records[n]);
    }
  }

  lemma FailedPathsAreTheRetries(contexts: seq<Context>, results: seq<PushResult>)
    requires |results| == |Buildables(contexts)|
    ensures Elements(FailedPaths(contexts, Buildables(contexts), results))
         == PathsAnswered(contexts, results, Retry)
  {
    FailedPathsMembers(contexts, Buildables(contexts), results);
  }

  /** Every context is answered, and when paths are distinct only once. */
  lemma AnswersPartition(contexts: seq<Context>, results: seq<PushResult>)
    requires |results| == |Buildables(contexts)|
    requires forall i, j :: 0 <= i < j < |contexts| ==> contexts[i].path != contexts[j].path
    ensures forall c :: c in contexts ==>
      exists v :: c.path in PathsAnswered(contexts, results, v)
    ensures forall p, v, w :: p in PathsAnswered(contexts, results, v) && p in PathsAnswered(contexts, results, w) ==>
      v == w
  {
    forall c | c in contexts ensures exists v :: c.path in PathsAnswered(contexts, results, v) {
      var i :| 0 <= i < |contexts| && contexts[i] == c;
      assert RecordSeq(contexts)[i] in Buildables(contexts);
      var k :| 0 <= k < |results| && Buildables(contexts)[k] == contexts[i].record;
      assert c.path in PathsAnswered(contexts, results, VerdictOf(results[k]));
    }
  }

  lemma {:induction false} ContextsOfBatch(batch: seq<Path>, resolve: map<Path, Resolution>)
    requires forall p :: p in batch ==> p in resolve
    requires Distinct(batch)
    ensures forall c :: c in ContextsOf(batch, resolve) ==> c.path in batch
    ensures forall i, j :: 0 <= i < j < |ContextsOf(batch, resolve)| ==>
      ContextsOf(batch, resolve)[i].path != ContextsOf(batch, resolve)[j].path
  {
    if batch != [] {
      ContextsOfBatch(batch[..|batch| - 1], resolve);
    }
  }

  /** The contexts of a batch are those of its tracked paths, each as it resolved. */
  lemma {:induction false} ContextsExactlyTracked(
      batch: seq<Path>, resolve: map<Path, Resolution>, p: Path, record: Record, field: string)
    requires forall q :: q in batch ==> q in resolve
    ensures Context(p, record, field) in ContextsOf(batch, resolve) <==>
      p in batch && resolve[p] == Tracked(record, field)
  {
    if batch != [] {
      var n := |batch| - 1;
      ContextsExactlyTracked(batch[..n], resolve, p, record, field);
      assert batch == batch[..n] + [batch[n]];
    }
  }

  /** A batch cannot be pushed exactly when a path cannot be resolved, or two of them claim one field of one record. */
  lemma {:induction false} ThrowsExactlyWhen(batch: seq<Path>, resolve: map<Path, Resolution>)
    requires forall p :: p in batch ==> p in resolve
    ensures ResolutionThrows(batch, resolve) <==>
      || (exists p :: p in batch && resolve[p].Unresolvable?)
      || (exists p, q :: p in batch && q in batch && p != q && resolve[p].Tracked? && resolve[p] == resolve[q])
  {
    var contexts := ContextsOf(batch, resolve);
    if ClaimedTwice(contexts) {
      var i, j :| 0 <= j < i < |contexts| && Conflict(contexts[i], contexts[j]);
      var c, d := contexts[i], contexts[j];
      assert c in contexts && d in contexts;
      ContextsExactlyTracked(batch, resolve, c.path, c.record, c.field);
      ContextsExactlyTracked(batch, resolve, d.path, d.record, d.field);
    }
    if p, q :| p in batch && q in batch && p != q && resolve[p].Tracked? && resolve[p] == resolve[q] {
      ContextsExactlyTracked(batch, resolve, p, resolve[p].record, resolve[p].field);
      ContextsExactlyTracked(batch, resolve, q, resolve[q].record, resolve[q].field);
      TwoOfThem(
        contexts, Context(p, resolve[p].record, resolve[p].field), Context(q, resolve[q].record, resolve[q].field));
    }
  }

  lemma TwoOfThem(contexts: seq<Context>, c: Context, d: Context)
    requires c in contexts && d in contexts && Conflict(c, d) && Conflict(d, c)
    ensures ClaimedTwice(contexts)
  {
    var i :| 0 <= i < |contexts| && contexts[i] == c;
    var j :| 0 <= j < |contexts| && contexts[j] == d;
    assert if j < i then Conflict(contexts[i], contexts[j]) else Conflict(contexts[j], contexts[i]);
  }

  /** What is pushed of a batch: each of its records once, in the order its files first name them. */
  lemma {:induction false} BuildablesExactly(contexts: seq<Context>)
    ensures Distinct(Buildables(contexts))
    ensures forall r :: r in Buildables(contexts) <==> exists c :: c in contexts && c.record == r
    ensures forall i, j :: 0 <= i < j < |Buildables(contexts)| ==>
      IndexOf(RecordSeq(contexts), Buildables(contexts)[i]) < IndexOf(RecordSeq(contexts), Buildables(contexts)[j])
  {
    var records := RecordSeq(contexts);
    forall r ensures r in records <==> exists c :: c in contexts && c.record == r {
      if r in records {
        var i :| 0 <= i < |records| && records[i] == r;
        assert contexts[i] in contexts;
      }
      if c :| c in contexts && c.record == r {
        var i :| 0 <= i < |contexts| && contexts[i] == c;
        assert records[i] == r;
      }
    }
    forall i, j | 0 <= i < j < |Dedup(records)|
      ensures IndexOf(records, Dedup(records)[i]) < IndexOf(records, Dedup(records)[j])
    {
      DedupKeepsOrder(records, i, j);
    }
  }

  /** What is put back goes ahead of what arrived since, without the deleted files, each path once. */
  lemma {:induction false} PutBackGoesFirst(s: State, paths: seq<Path>, p: Path, q: Path)
    requires p in paths && p !in s.deleted && q in s.queue && q !in paths
    ensures var queue := Requeue(s, paths).queue;
      && Distinct(queue) && p in queue && q in queue && IndexOf(queue, p) < IndexOf(queue, q)
      && forall x :: x in queue <==> (x in paths && x !in s.deleted) || x in s.queue
  {
    var kept := Without(paths, s.deleted);
    var queue := Dedup(kept + s.queue);
    IndexInFront(kept, s.queue, p);
    IndexBehind(kept, s.queue, q);
    var i, j := IndexOf(queue, p), IndexOf(queue, q);
    if j < i {
      DedupKeepsOrder(kept + s.queue, j, i);
    }
  }

  lemma {:induction false} IndexInFront(xs: seq<Path>, ys: seq<Path>, p: Path)
    requires p in xs
    ensures IndexOf(xs + ys, p) < |xs|
  {
    var i :| 0 <= i < |xs| && xs[i] == p;
    assert (xs + ys)[i] == p;
  }

  lemma {:induction false} IndexBehind(xs: seq<Path>, ys: seq<Path>, p: Path)
    requires p !in xs && p in ys
    ensures IndexOf(xs + ys, p) >= |xs|
  {
    assert forall i :: 0 <= i < |xs| ==> (xs + ys)[i] == xs[i] && xs[i] in xs;
  }

  /** The first retry waits half a second, each later one twice as long as the one before, up to half a minute. */
  lemma DelayDoubles(n: nat)
    ensures Delay(0) == 500
    ensures Delay(n + 1) == if 2 * Delay(n) < 30000 then 2 * Delay(n) else 30000
  {}

  /** A stop ends the session and leaves nothing of it: no path queued or deleted, no retry armed, no backoff. */
  lemma StopLeavesNothing(s: State)
    requires OneTimer(s)
    ensures var s1 := Step(s, Stopped);
      && s1.queue == [] && s1.deleted == {} && s1.attempt == 0 && s1.timers.armed == map[] && s1.timer.None?
      && s1.session == s.session + 1 && s1.drain == s.drain && s1.debounce == s.debounce
  {}

  /** A drain that finds nothing more to push ends with the backoff reset and no retry armed. */
  lemma FullDrainResets(s: State)
    requires OneTimer(s) && s.queue == []
    ensures var s1 := LoopHead(s);
      s1.drain.Idle? && s1.attempt == 0 && s1.timers.armed == map[] && s1.timer.None? && s1.queue == []
  {}

  /** Otherwise it takes the whole queue, each path once, in the order they came. */
  lemma {:induction false} BatchIsTheQueue(s: State)
    requires s.queue != []
    ensures var s1 := LoopHead(s);
      && s1.queue == [] && s1.drain.Reloading? && s1.drain.since == s.session && Distinct(s1.drain.batch)
      && (forall p :: p in s1.drain.batch <==> p in s.queue)
      && forall i, j :: 0 <= i < j < |s1.drain.batch| ==>
           IndexOf(s.queue, s1.drain.batch[i]) < IndexOf(s.queue, s1.drain.batch[j])
  {
    forall i, j | 0 <= i < j < |Dedup(s.queue)|
      ensures IndexOf(s.queue, Dedup(s.queue)[i]) < IndexOf(s.queue, Dedup(s.queue)[j])
    {
      DedupKeepsOrder(s.queue, i, j);
    }
  }

  lemma {:induction false} Pow2Monotone(a: nat, b: nat)
    requires a <= b
    ensures Pow2(a) <= Pow2(b)
  {
    if a < b { Pow2Monotone(a, b - 1); }
  }

  /** The delay stays in its range and never shrinks as failures repeat. */
  lemma DelayMonotone(a: nat, b: nat)
    requires a <= b
    ensures RETRY_BASE_MS <= Delay(a) <= Delay(b) <= MAX_RETRY_MS
  {
    Pow2Monotone(a, b);
  }

  // --- One step ---------------------------------------------------------------

  lemma AcceptedStep(s: State, l: Ledger, e: Event)
    requires Inv(s, l) && Enabled(s, e) && Accepts(e).Some?
    ensures Faithful(Step(s, e), Owe(l, s, e)) && Isolated(Step(s, e), Owe(l, s, e))
  {
    var l1 := Owe(l, s, e);
    var s1 := Step(s, e);
    forall p ensures p in s1.queue <==> Has(l1, p, Waiting) {
      if p == e.path { assert l1[|l|].path == p && l1[|l|].status == Waiting; }
      if i :| 0 <= i < |l| && l[i].path == p && l[i].status == Waiting { assert l1[i].status == Waiting; }
    }
    forall p ensures Has(l, p, Flying) <==> Has(l1, p, Flying) {
      if i :| 0 <= i < |l| && l[i].path == p && l[i].status == Flying { assert l1[i].status == Flying; }
    }
  }

  /** An event that brings no change keeps every entry and only moves statuses. */
  lemma HasAfter(l: Ledger, s: State, e: Event)
    requires Enabled(s, e) && Accepts(e).None?
    ensures forall p, st :: Has(Owe(l, s, e), p, st) <==>
      (exists i :: 0 <= i < |l| && l[i].path == p && Next(l[i], s, e) == st)
  {}

  /** Taking a batch: what waited flies, what was settled stays settled. */
  lemma TakingStep(mid: Ledger, l: Ledger, s: State)
    requires |l| == |mid|
    requires forall i :: 0 <= i < |l| ==>
      l[i].path == mid[i].path && l[i].session == mid[i].session && l[i].status == Taken(mid[i].status)
    requires forall i :: 0 <= i < |mid| ==> !mid[i].status.Flying?
    requires forall i :: 0 <= i < |mid| && !mid[i].status.Settled? ==> mid[i].session == s.session
    requires forall p :: p in s.queue <==> Has(mid, p, Waiting)
    ensures Faithful(LoopHead(s), l) && Isolated(LoopHead(s), l)
  {
    forall p ensures !Has(l, p, Waiting) {}
    forall p ensures Has(l, p, Flying) <==> p in s.queue {
      if i :| 0 <= i < |mid| && mid[i].path == p && mid[i].status == Waiting { assert l[i].status == Flying; }
      if i :| 0 <= i < |l| && l[i].path == p && l[i].status == Flying { assert mid[i].status == Waiting; }
    }
  }

  lemma FlyingOnlyInOwnSession(s: State, l: Ledger)
    requires Faithful(s, l)
    ensures s.drain.Idle? || s.drain.since != s.session ==> forall i :: 0 <= i < |l| ==> !l[i].status.Flying?
  {
    if !s.drain.Idle? && s.drain.since == s.session { return; }
    forall i | 0 <= i < |l| ensures !l[i].status.Flying? {
      if l[i].status.Flying? { assert Has(l, l[i].path, Flying); }
    }
  }

  lemma UnlinkedStep(s: State, l: Ledger, path: Path)
    requires Inv(s, l)
    ensures Faithful(Step(s, Unlinked(path)), Owe(l, s, Unlinked(path)))
    ensures Isolated(Step(s, Unlinked(path)), Owe(l, s, Unlinked(path)))
  {
    HasAfter(l, s, Unlinked(path));
    FlyingOnlyInOwnSession(s, l);
  }

  lemma StoppedStep(s: State, l: Ledger)
    requires Inv(s, l)
    ensures Faithful(Step(s, Stopped), Owe(l, s, Stopped)) && Isolated(Step(s, Stopped), Owe(l, s, Stopped))
  {}

  lemma TimerStep(s: State, l: Ledger, e: Event)
    requires Inv(s, l) && Enabled(s, e) && (e.DebounceFires? || e.RetryFires?)
    ensures Faithful(Step(s, e), Owe(l, s, e)) && Isolated(Step(s, e), Owe(l, s, e))
  {
    HasAfter(l, s, e);
    FlyingOnlyInOwnSession(s, l);
    if s.drain.Idle? {
      TakingStep(l, Owe(l, s, e), if e.DebounceFires? then s.(debounce := false)
        else s.(timer := None, timers := Disarm(s.timers, e.timer)));
    }
  }

  /** A failed batch waits again, and only what still exists of it. */
  lemma CaughtStep(s: State, l: Ledger, e: Event)
    requires Inv(s, l) && Enabled(s, e) && Accepts(e).None? && !s.drain.Idle?
    requires forall i :: 0 <= i < |l| ==>
      Next(l[i], s, e) == if l[i].status.Flying? then Returned(l[i], s.deleted) else l[i].status
    ensures Faithful(Caught(s), Owe(l, s, e)) && Isolated(Caught(s), Owe(l, s, e))
  {
    HasAfter(l, s, e);
    var l1 := Owe(l, s, e);
    if s.drain.since != s.session {
      FlyingOnlyInOwnSession(s, l);
    }
    forall p ensures p in Caught(s).queue <==> Has(l1, p, Waiting) {
      if p in s.queue {
        var i :| 0 <= i < |l| && l[i].path == p && l[i].status == Waiting;
        assert Next(l[i], s, e) == Waiting;
      } else if p in Caught(s).queue {
        assert Has(l, p, Flying);
        var i :| 0 <= i < |l| && l[i].path == p && l[i].status == Flying;
        assert Next(l[i], s, e) == Waiting;
      }
    }
  }

  lemma ReloadStep(s: State, l: Ledger, e: Event)
    requires Inv(s, l) && Enabled(s, e) && e.ReloadReturns?
    ensures Faithful(Step(s, e), Owe(l, s, e)) && Isolated(Step(s, e), Owe(l, s, e))
  {
    HasAfter(l, s, e);
    if s.drain.since != s.session {
      FlyingOnlyInOwnSession(s, l);
      TakingStep(l, Owe(l, s, e), s);
    } else if ResolutionThrows(s.drain.batch, e.resolve) {
      CaughtStep(s, l, e);
    } else {
      assert forall i :: 0 <= i < |l| ==> Next(l[i], s, e) == l[i].status;
    }
  }

  /** The ledger between the push's answer and the next batch. */
  ghost function Midway(l: Ledger, s: State, results: seq<PushResult>): Ledger
    requires Enabled(s, PushReturns(results))
  {
    seq(|l|, i requires 0 <= i < |l| => l[i].(status := Answered(l[i], s, results)))
  }

  /** After the answer, exactly the paths to retry that still exist join what waits. */
  lemma MidwayWaits(l: Ledger, s: State, results: seq<PushResult>)
    requires Inv(s, l) && Enabled(s, PushReturns(results)) && s.drain.since == s.session
    ensures forall p :: Has(Midway(l, s, results), p, Waiting) <==>
      p in s.queue || (p in PathsAnswered(s.drain.contexts, results, Retry) && p !in s.deleted)
    ensures forall i :: 0 <= i < |l| ==> !Midway(l, s, results)[i].status.Flying?
  {
    var contexts := s.drain.contexts;
    var retry := PathsAnswered(contexts, results, Retry);
    var mid := Midway(l, s, results);
    AnswersPartition(contexts, results);
    forall p | p in retry ensures Has(l, p, Flying) {
      assert p in s.drain.batch;
    }
    forall p | p in s.queue ensures Has(mid, p, Waiting) {
      var i :| 0 <= i < |l| && l[i].path == p && l[i].status == Waiting;
      assert mid[i].status == Waiting;
    }
    forall p | p in retry && p !in s.deleted ensures Has(mid, p, Waiting) {
      var i :| 0 <= i < |l| && l[i].path == p && l[i].status == Flying;
      assert mid[i].status == Waiting;
    }
    forall p | Has(mid, p, Waiting) ensures p in s.queue || (p in retry && p !in s.deleted) {
      var i :| 0 <= i < |mid| && mid[i].path == p && mid[i].status == Waiting;
      assert Has(l, p, l[i].status);
    }
  }

  lemma PushStep(s: State, l: Ledger, e: Event)
    requires Inv(s, l) && Enabled(s, e) && e.PushReturns?
    ensures Faithful(Step(s, e), Owe(l, s, e)) && Isolated(Step(s, e), Owe(l, s, e))
  {
    hide FailedPaths, Buildables, PathsAnswered, Dedup, Without, Delay;
    if s.drain.since != s.session {
      FlyingOnlyInOwnSession(s, l);
      TakingStep(l, Owe(l, s, e), s);
    } else {
      FailedPathsAreTheRetries(s.drain.contexts, e.results);
      var failed := FailedPaths(s.drain.contexts, Buildables(s.drain.contexts), e.results);
      var retry := PathsAnswered(s.drain.contexts, e.results, Retry);
      assert forall p :: p in failed <==> p in retry by {
        assert forall p :: p in failed <==> p in Elements(failed);
      }
      MidwayWaits(l, s, e.results);
      var mid := Midway(l, s, e.results);
      if failed == [] {
        TakingStep(mid, Owe(l, s, e), s);
      } else {
        assert failed[0] in retry;
        assert Owe(l, s, e) == mid;
        forall p ensures !Has(mid, p, Flying) {}
      }
    }
  }

  /** Whatever is armed is what the variable holds: arming, clearing and firing keep them together. */
  lemma TimerKept(s: State, e: Event)
    requires OneTimer(s) && Enabled(s, e)
    ensures OneTimer(Step(s, e))
  {
    hide Dedup, Without, ContextsOf, Buildables, ResolutionThrows, FailedPaths, Delay;
  }

  lemma StallStep(s: State, e: Event)
    requires NeverStalls(s) && OneTimer(s) && Enabled(s, e)
    ensures NeverStalls(Step(s, e))
  {
    TimerKept(s, e);
  }

  lemma BackoffStep(s: State, e: Event)
    requires BackoffBounded(s) && OneTimer(s) && Enabled(s, e)
    ensures BackoffBounded(Step(s, e))
  {
    hide Dedup, Without, ContextsOf, Buildables, ResolutionThrows, FailedPaths, Delay;
    DelayMonotone(s.attempt, s.attempt);
  }

  lemma BatchStep(s: State, e: Event)
    requires BatchWellFormed(s) && Enabled(s, e)
    ensures BatchWellFormed(Step(s, e))
  {
    if e.ReloadReturns? && s.drain.since == s.session {
      ContextsOfBatch(s.drain.batch, e.resolve);
    }
  }

  /** Every step, from any state satisfying the invariant, keeps all of it. */
  lemma StepKeepsInv(s: State, l: Ledger, e: Event)
    requires Inv(s, l) && Enabled(s, e)
    ensures Inv(Step(s, e), Owe(l, s, e))
  {
    TimerKept(s, e);
    StallStep(s, e);
    BackoffStep(s, e);
    BatchStep(s, e);
    match e
    case Changed(_) => AcceptedStep(s, l, e);
    case Added(p, stray, tracked) =>
      if !stray && tracked { AcceptedStep(s, l, e); } else { HasAfter(l, s, e); FlyingOnlyInOwnSession(s, l); }
    case Unlinked(p) => UnlinkedStep(s, l, p);
    case Stopped => StoppedStep(s, l);
    case DebounceFires => TimerStep(s, l, e);
    case RetryFires(_) => TimerStep(s, l, e);
    case ReloadReturns(_) => ReloadStep(s, l, e);
    case PushReturns(_) => PushStep(s, l, e);
    case AwaitThrows => CaughtStep(s, l, e);
  }

  // --- Whole runs -------------------------------------------------------------

  /** Every event of the run is possible when it lands. */
  predicate Legal(s: State, run: seq<Event>)
    decreases |run|
  {
    run == [] || (Enabled(s, run[0]) && Legal(Step(s, run[0]), run[1..]))
  }

  function After(s: State, run: seq<Event>): State
    requires Legal(s, run)
    decreases |run|
  {
    if run == [] then s else After(Step(s, run[0]), run[1..])
  }

  ghost function OwedAfter(l: Ledger, s: State, run: seq<Event>): Ledger
    requires Legal(s, run)
    decreases |run|
  {
    if run == [] then l else OwedAfter(Owe(l, s, run[0]), Step(s, run[0]), run[1..])
  }

  lemma {:induction false} RunKeepsInv(s: State, l: Ledger, run: seq<Event>)
    requires Inv(s, l) && Legal(s, run)
    ensures Inv(After(s, run), OwedAfter(l, s, run))
    decreases |run|
  {
    if run != [] {
      StepKeepsInv(s, l, run[0]);
      RunKeepsInv(Step(s, run[0]), Owe(l, s, run[0]), run[1..]);
    }
  }

  /** No change is ever forgotten: its entry stays, and once settled it stays settled. */
  lemma {:induction false} EntriesSurvive(s: State, l: Ledger, run: seq<Event>)
    requires Legal(s, run)
    ensures |l| <= |OwedAfter(l, s, run)|
    ensures forall i :: 0 <= i < |l| ==>
      && OwedAfter(l, s, run)[i].path == l[i].path
      && OwedAfter(l, s, run)[i].session == l[i].session
      && (l[i].status.Settled? ==> OwedAfter(l, s, run)[i].status == l[i].status)
    decreases |run|
  {
    if run != [] {
      EntriesSurvive(Step(s, run[0]), Owe(l, s, run[0]), run[1..]);
    }
  }

  /**
    No lost change: after any run of events, awaits, throws and retries from the
    start, each change ever accepted is in the queue, or in the batch being pushed
    of its own session, or settled; and the queue holds nothing else.
   */
  lemma NoLostChange(run: seq<Event>)
    requires Legal(INITIAL, run)
    ensures
      var s, l := After(INITIAL, run), OwedAfter([], INITIAL, run);
      && (forall i :: 0 <= i < |l| ==>
            || l[i].status.Settled?
            || (l[i].session == s.session && l[i].path in s.queue && l[i].path !in s.deleted)
            || (l[i].session == s.session && !s.drain.Idle? && s.drain.since == s.session
                && l[i].path in s.drain.batch))
      && (forall p :: p in s.queue ==>
            exists i :: 0 <= i < |l| && l[i].path == p && l[i].status == Waiting && l[i].session == s.session)
      && NeverStalls(s)
  {
    RunKeepsInv(INITIAL, [], run);
    var s, l := After(INITIAL, run), OwedAfter([], INITIAL, run);
    forall i | 0 <= i < |l| && !l[i].status.Settled?
      ensures l[i].path in s.queue || (!s.drain.Idle? && s.drain.since == s.session && l[i].path in s.drain.batch)
    {
      assert Has(l, l[i].path, l[i].status);
    }
  }

  /** The backoff restarts. */
  predicate Resets(s: State, e: Event)
    requires Enabled(s, e)
  {
    Step(s, e).attempt < s.attempt
  }

  /** The backoff restarts only on a stop or on a drain that emptied the queue. */
  lemma ResetMeansStoppedOrDrained(s: State, e: Event)
    requires OneTimer(s) && Enabled(s, e) && Resets(s, e)
    ensures e.Stopped? || (Step(s, e).queue == [] && Step(s, e).drain.Idle?)
    ensures Step(s, e).attempt == 0 && Step(s, e).timers.armed == map[]
  {
    TimerKept(s, e);
  }

  predicate NoReset(s: State, run: seq<Event>)
    requires Legal(s, run)
    decreases |run|
  {
    run == [] || (!Resets(s, run[0]) && NoReset(Step(s, run[0]), run[1..]))
  }

  lemma {:induction false} AttemptGrows(s: State, run: seq<Event>)
    requires Legal(s, run) && NoReset(s, run)
    ensures s.attempt <= After(s, run).attempt
    decreases |run|
  {
    if run != [] { AttemptGrows(Step(s, run[0]), run[1..]); }
  }

  /** Between resets a retry armed later never waits less than one armed earlier. */
  lemma BackoffNeverShrinks(s: State, l: Ledger, run: seq<Event>, t: Timer, u: Timer)
    requires Inv(s, l) && Legal(s, run) && NoReset(s, run)
    requires t in s.timers.armed && u in After(s, run).timers.armed
    ensures RETRY_BASE_MS <= s.timers.armed[t] <= After(s, run).timers.armed[u] <= MAX_RETRY_MS
  {
    RunKeepsInv(s, l, run);
    AttemptGrows(s, run);
    DelayMonotone(s.attempt - 1, After(s, run).attempt - 1);
  }

  /** In every reachable state at most one retry timer is armed, and the variable holds it. */
  lemma AtMostOneRetry(run: seq<Event>)
    requires Legal(INITIAL, run)
    ensures |After(INITIAL, run).timers.armed| <= 1 && OneTimer(After(INITIAL, run))
  {
    RunKeepsInv(INITIAL, [], run);
    var s := After(INITIAL, run);
    assert |s.timers.armed| == |s.timers.armed.Keys|;
  }

  /** The timer whose firing NeverStalls promises. */
  function Driver(s: State): Event {
    if s.debounce || s.timer.None? then DebounceFires else RetryFires(s.timer.value)
  }

  lemma OneStep(s: State, e: Event, rest: seq<Event>)
    requires Enabled(s, e) && Legal(Step(s, e), rest)
    ensures Legal(s, [e] + rest) && After(s, [e] + rest) == After(Step(s, e), rest)
  {}

  lemma ThreeSteps(s: State, e1: Event, e2: Event, e3: Event)
    requires Enabled(s, e1) && Enabled(Step(s, e1), e2) && Enabled(Step(Step(s, e1), e2), e3)
    ensures Legal(s, [e1, e2, e3])
    ensures After(s, [e1, e2, e3]) == Step(Step(Step(s, e1), e2), e3)
  {
    hide Step, Enabled;
    var s1, s2 := Step(s, e1), Step(Step(s, e1), e2);
    OneStep(s2, e3, []);
    OneStep(s1, e2, [e3]);
    OneStep(s, e1, [e2, e3]);
    assert [e2] + [e3] == [e2, e3] && [e1] + [e2, e3] == [e1, e2, e3];
  }

  lemma NothingOwedWhenIdle(s: State, l: Ledger)
    requires Inv(s, l) && s.queue == [] && s.drain.Idle?
    ensures forall c :: c in l ==> c.status.Settled?
  {
    forall c | c in l ensures c.status.Settled? {
      assert Has(l, c.path, c.status);
    }
  }

  /** Some path is to be retried exactly when some result asks for it. */
  lemma {:induction false} FailedExactlyWhen(contexts: seq<Context>, results: seq<PushResult>, deleted: set<Path>)
    requires |results| == |Buildables(contexts)|
    requires forall c :: c in contexts ==> c.path !in deleted
    ensures var failed := FailedPaths(contexts, Buildables(contexts), results);
      && (failed == [] <==> forall r :: r in results ==> !FailsForRetry(r))
      && (failed != [] ==> Dedup(Without(failed, deleted) + []) != [])
  {
    var records := Buildables(contexts);
    FailedPathsMembers(contexts, records, results);
    var failed := FailedPaths(contexts, records, results);
    if failed != [] {
      assert failed[0] in failed;
    }
    if k :| 0 <= k < |results| && FailsForRetry(results[k]) {
      assert records[k] in RecordSeq(contexts);
      var i :| 0 <= i < |contexts| && RecordSeq(contexts)[i] == records[k];
      assert contexts[i] in contexts && contexts[i].path in failed && contexts[i].path in Without(failed, deleted);
      assert contexts[i].path in Dedup(Without(failed, deleted) + []);
    } else {
      assert forall p :: p !in failed;
    }
  }

  /** A drain that nothing disturbs ends with an empty queue exactly when no result asks for a retry. */
  lemma {:induction false} QuietDrainEmptiesExactlyWhen(
      s: State, resolve: map<Path, Resolution>, results: seq<PushResult>)
    requires s.drain.Idle? && s.queue != [] && Enabled(s, Driver(s))
    requires forall p :: p in s.queue ==> p !in s.deleted
    requires forall p :: p in Dedup(s.queue) ==> p in resolve
    requires !ResolutionThrows(Dedup(s.queue), resolve)
    requires |results| == |Buildables(ContextsOf(Dedup(s.queue), resolve))|
    ensures
      var s1 := Step(s, Driver(s));
      && Enabled(s1, ReloadReturns(resolve))
      && Enabled(Step(s1, ReloadReturns(resolve)), PushReturns(results))
      && var end := Step(Step(s1, ReloadReturns(resolve)), PushReturns(results));
         && end.drain.Idle?
         && (end.queue == [] <==> forall r :: r in results ==> !FailsForRetry(r))
  {
    hide ResolutionThrows, ContextsOf, Buildables, FailedPaths, Without, FailsForRetry, Disarm, SetTimeout, Delay;
    var batch := Dedup(s.queue);
    var contexts := ContextsOf(batch, resolve);
    ContextsOfBatch(batch, resolve);
    FailedExactlyWhen(contexts, results, s.deleted);
    var s1 := Step(s, Driver(s));
    assert s1.drain == Reloading(batch, s.session) && s1.queue == [];
    assert s1.deleted == s.deleted && s1.session == s.session;
    var s2 := Step(s1, ReloadReturns(resolve));
    assert s2 == s1.(drain := Pushing(batch, s.session, contexts));
  }

  /** When nothing else happens, one drain settles everything owed exactly when no result asks for a retry. */
  lemma {:induction false} QuietDrainSettlesExactlyWhen(
      s: State, l: Ledger, resolve: map<Path, Resolution>, results: seq<PushResult>)
    requires Inv(s, l) && s.drain.Idle? && s.queue != []
    requires forall p :: p in Dedup(s.queue) ==> p in resolve
    requires !ResolutionThrows(Dedup(s.queue), resolve)
    requires |results| == |Buildables(ContextsOf(Dedup(s.queue), resolve))|
    ensures
      var run := [Driver(s), ReloadReturns(resolve), PushReturns(results)];
      && Legal(s, run) && After(s, run).drain.Idle?
      && ((forall c :: c in OwedAfter(l, s, run) ==> c.status.Settled?) <==>
        forall r :: r in results ==> !FailsForRetry(r))
  {
    var run := [Driver(s), ReloadReturns(resolve), PushReturns(results)];
    DriverIsEnabled(s, l);
    hide Step, Enabled, Owe, ResolutionThrows, ContextsOf, Buildables, FailsForRetry, BatchWellFormed,
      BackoffBounded, Driver;
    QuietDrainEmptiesExactlyWhen(s, resolve, results);
    ThreeSteps(s, run[0], run[1], run[2]);
    RunKeepsInv(s, l, run);
    SettledExactlyWhenEmpty(After(s, run), OwedAfter(l, s, run));
  }

  lemma DriverIsEnabled(s: State, l: Ledger)
    requires Inv(s, l) && s.drain.Idle? && s.queue != []
    ensures Enabled(s, Driver(s))
    ensures forall p :: p in s.queue ==> p !in s.deleted
  {}

  lemma SettledExactlyWhenEmpty(s: State, l: Ledger)
    requires Inv(s, l) && s.drain.Idle?
    ensures (forall c :: c in l ==> c.status.Settled?) <==> s.queue == []
  {
    if s.queue == [] {
      NothingOwedWhenIdle(s, l);
    } else {
      assert Has(l, s.queue[0], Waiting);
    }
  }

  // --- Skipped changes --------------------------------------------------------

  /**
    A flying change that resolved to no context is back in the queue after the next
    event exactly when that event is a throw within its own session and its file
    has not been deleted.
   */
  lemma {:induction false} SkippedReturnsExactlyWhen(s: State, l: Ledger, e: Event, i: nat)
    requires Inv(s, l) && Enabled(s, e)
    requires i < |l| && l[i].status.Flying? && s.drain.Pushing?
    requires forall c :: c in s.drain.contexts ==> c.path != l[i].path
    ensures Owe(l, s, e)[i].status.Waiting? <==>
      e.AwaitThrows? && s.drain.since == s.session && l[i].path !in s.deleted
    ensures Owe(l, s, e)[i].status.Waiting? ==> l[i].path in Step(s, e).queue
    ensures e.PushReturns? ==> Owe(l, s, e)[i].status == Settled(Skipped)
  {
    FlyingOnlyInOwnSession(s, l);
    StepKeepsInv(s, l, e);
    if Owe(l, s, e)[i].status.Waiting? {
      assert Has(Owe(l, s, e), l[i].path, Waiting);
    }
    if e.PushReturns? {
      assert forall v :: l[i].path !in PathsAnswered(s.drain.contexts, e.results, v);
    }
  }

  /**
    The same before the push: a flying change that resolves to no context is back in the
    queue after the reload exactly when the session is still its own, the batch cannot be
    resolved or grouped, and its file has not been deleted. Otherwise, in its own
    session, it flies on without a context.
   */
  lemma {:induction false} IgnoredReturnsExactlyWhen(s: State, l: Ledger, resolve: map<Path, Resolution>, i: nat)
    requires Inv(s, l) && Enabled(s, ReloadReturns(resolve))
    requires i < |l| && l[i].status.Flying? && l[i].path in resolve
    requires resolve[l[i].path].Stray? || resolve[l[i].path].Untracked?
    ensures var e := ReloadReturns(resolve);
      && (Owe(l, s, e)[i].status.Waiting? <==>
            s.drain.since == s.session && ResolutionThrows(s.drain.batch, resolve) && l[i].path !in s.deleted)
      && (Owe(l, s, e)[i].status.Waiting? ==> l[i].path in Step(s, e).queue)
      && (Owe(l, s, e)[i].status.Flying? ==>
            Step(s, e).drain.Pushing? && forall c :: c in Step(s, e).drain.contexts ==> c.path != l[i].path)
  {
    hide ResolutionThrows, Dedup, Without;
    var e := ReloadReturns(resolve);
    FlyingOnlyInOwnSession(s, l);
    StepKeepsInv(s, l, e);
    ContextsAreTracked(s.drain.batch, resolve);
    if Owe(l, s, e)[i].status.Waiting? {
      assert Has(Owe(l, s, e), l[i].path, Waiting);
    }
  }

  lemma {:induction false} ContextsAreTracked(batch: seq<Path>, resolve: map<Path, Resolution>)
    requires forall p :: p in batch ==> p in resolve
    ensures forall c :: c in ContextsOf(batch, resolve) ==> c.path in resolve && resolve[c.path].Tracked?
  {
    if batch != [] {
      ContextsAreTracked(batch[..|batch| - 1], resolve);
    }
  }

  /** Such a run without any push: beside the ignored file, two others claim one field of one record. */
  lemma {:induction false} IgnoredComesBack(
      p: Path, q1: Path, q2: Path, r: Resolution, record: Record, field: string)
    requires p != q1 && p != q2 && q1 != q2 && (r.Stray? || r.Untracked?)
    ensures
      var resolve := map[p := r, q1 := Tracked(record, field), q2 := Tracked(record, field)];
      var s3 := Step(Step(Step(Step(INITIAL, Changed(p)), Changed(q1)), Changed(q2)), DebounceFires);
      && s3.drain == Reloading([p, q1, q2], 0)
      && Enabled(s3, ReloadReturns(resolve))
      && Step(s3, ReloadReturns(resolve)).drain.Idle? && Step(s3, ReloadReturns(resolve)).queue == [p, q1, q2]
  {
    var resolve := map[p := r, q1 := Tracked(record, field), q2 := Tracked(record, field)];
    hide Step, Enabled;
    BatchOfThree(p, q1, q2);
    GroupingThrows(p, q1, q2, resolve);
  }

  lemma {:induction false} BatchOfThree(p: Path, q1: Path, q2: Path)
    requires p != q1 && p != q2 && q1 != q2
    ensures Step(Step(Step(Step(INITIAL, Changed(p)), Changed(q1)), Changed(q2)), DebounceFires)
      == INITIAL.(drain := Reloading([p, q1, q2], 0))
  {
    hide Dedup, Without;
    DistinctStays([p, q1, q2]);
    var s2 := Step(Step(Step(INITIAL, Changed(p)), Changed(q1)), Changed(q2));
    assert s2 == INITIAL.(queue := [p, q1, q2], debounce := true);
  }

  lemma {:induction false} GroupingThrows(p: Path, q1: Path, q2: Path, resolve: map<Path, Resolution>)
    requires p != q1 && p != q2 && q1 != q2 && p in resolve && (resolve[p].Stray? || resolve[p].Untracked?)
    requires q1 in resolve && q2 in resolve && resolve[q1].Tracked? && resolve[q1] == resolve[q2]
    ensures
      var s := INITIAL.(drain := Reloading([p, q1, q2], 0));
      && Enabled(s, ReloadReturns(resolve))
      && Step(s, ReloadReturns(resolve)).drain.Idle? && Step(s, ReloadReturns(resolve)).queue == [p, q1, q2]
  {
    hide Dedup, Without, ContextsOf, ClaimedTwice, ResolutionThrows, Delay;
    TwoClaims(p, q1, q2, resolve);
    DistinctStays([p, q1, q2]);
    NothingWithout([p, q1, q2]);
    assert [p, q1, q2] + [] == [p, q1, q2];
  }

  lemma {:induction false} DistinctStays(xs: seq<Path>)
    requires Distinct(xs)
    ensures Dedup(xs) == xs
  {
    if xs != [] {
      var front := xs[..|xs| - 1];
      DistinctStays(front);
      assert xs == front + [xs[|xs| - 1]] && xs[|xs| - 1] !in front;
    }
  }

  lemma {:induction false} NothingWithout(xs: seq<Path>)
    ensures Without(xs, {}) == xs
  {
    if xs != [] {
      NothingWithout(xs[..|xs| - 1]);
      assert xs == xs[..|xs| - 1] + [xs[|xs| - 1]];
    }
  }

  lemma TwoClaims(p: Path, q1: Path, q2: Path, resolve: map<Path, Resolution>)
    requires q1 != q2 && p in resolve && (resolve[p].Stray? || resolve[p].Untracked?)
    requires q1 in resolve && q2 in resolve && resolve[q1].Tracked? && resolve[q1] == resolve[q2]
    ensures ResolutionThrows([p, q1, q2], resolve)
  {
    OneContext(p, q1, resolve);
    var three := [p, q1, q2];
    assert three[..2] == [p, q1];
    var contexts := ContextsOf(three, resolve);
    assert |contexts| == 2 && Conflict(contexts[1], contexts[0]);
  }

  /** Such a run: a stray or untracked file is saved beside a tracked one, and the push throws. */
  lemma {:induction false} SkippedComesBack(p: Path, q: Path, r: Resolution, record: Record, field: string)
    requires p != q && (r.Stray? || r.Untracked?)
    ensures
      var resolve := map[p := r, q := Tracked(record, field)];
      var s2 := Step(Step(Step(INITIAL, Changed(p)), Changed(q)), DebounceFires);
      && Enabled(s2, ReloadReturns(resolve))
      && Step(s2, ReloadReturns(resolve)).drain == Pushing([p, q], 0, [Context(q, record, field)])
      && Step(Step(s2, ReloadReturns(resolve)), AwaitThrows).queue == [p, q]
  {
    var resolve := map[p := r, q := Tracked(record, field)];
    hide Step, Enabled;
    BatchOfTwo(p, q);
    PushThrows(p, q, resolve);
  }

  lemma {:induction false} BatchOfTwo(p: Path, q: Path)
    requires p != q
    ensures Step(Step(Step(INITIAL, Changed(p)), Changed(q)), DebounceFires) == INITIAL.(drain := Reloading([p, q], 0))
  {
    hide Dedup, Without;
    TwoPaths(p, q);
    var s1 := Step(Step(INITIAL, Changed(p)), Changed(q));
    assert s1 == INITIAL.(queue := [p, q], debounce := true);
  }

  lemma {:induction false} PushThrows(p: Path, q: Path, resolve: map<Path, Resolution>)
    requires p != q && p in resolve && (resolve[p].Stray? || resolve[p].Untracked?)
    requires q in resolve && resolve[q].Tracked?
    ensures
      var s := INITIAL.(drain := Reloading([p, q], 0));
      && Enabled(s, ReloadReturns(resolve))
      && var s1 := Step(s, ReloadReturns(resolve));
         && s1.drain == Pushing([p, q], 0, [Context(q, resolve[q].record, resolve[q].field)])
         && Step(s1, AwaitThrows).queue == [p, q]
  {
    hide Dedup, Without, ContextsOf, ResolutionThrows, Delay;
    TwoPaths(p, q);
    OneContext(p, q, resolve);
  }

  lemma TwoPaths(p: Path, q: Path)
    requires p != q
    ensures Dedup([p, q]) == [p, q] && Dedup(Without([p, q], {}) + []) == [p, q]
  {
    DistinctStays([p, q]);
    NothingWithout([p, q]);
    assert [p, q] + [] == [p, q];
  }

  lemma OneContext(p: Path, q: Path, resolve: map<Path, Resolution>)
    requires p in resolve && (resolve[p].Stray? || resolve[p].Untracked?) && q in resolve && resolve[q].Tracked?
    ensures ContextsOf([p, q], resolve) == [Context(q, resolve[q].record, resolve[q].field)]
    ensures !ResolutionThrows([p, q], resolve)
  {
    var one, two := [p], [p, q];
    assert one[..0] == [] && two[..1] == one;
    assert ContextsOf(one, resolve) == [];
  }
}
