/** The resumable download loop itself, over a workspace it updates in place. */
module Downloader {
  import opened Collections
  import opened StringOrder
  import opened DownloadResume
  import opened DownloadTheorems
  import opened DownloadContent

  datatype Outcome =
    | Finished
    | Incomplete(failed: seq<string>)
    | Died

  lemma {:induction false} OneMore(secret: SecretRule, s: State, events: seq<Event>, mid: State, e: Event)
    requires Leads(secret, s, events, mid) && Enabled(mid, e)
    ensures Leads(secret, s, events + [e], Step(secret, mid, e))
    decreases |events|
  {
    if events == [] {
      var one := [e];
      assert events + [e] == one;
      assert one[1..] == [];
      assert Legal(secret, Step(secret, s, e), one[1..]);
    } else {
      assert (events + [e])[1..] == events[1..] + [e];
      OneMore(secret, Step(secret, s, events[0]), events[1..], mid, e);
    }
  }

  /** The fields that were asked for and did not come back, sorted, each once. */
  method CollectUnfetchedFields(
      secret: SecretRule, table: string, requested: seq<RecordWork>, fetched: Fetched) returns (r: seq<string>)
    ensures Elements(r) == Unfetched(secret, table, requested, fetched)
    ensures Sorted(r) && Distinct(r)
    ensures r == [] <==> Unfetched(secret, table, requested, fetched) == {}
  {
    var unfetched: seq<string> := [];
    AsksNothing(secret, table, requested[..0], fetched);
    hide Unfetched;
    for n := 0 to |requested|
      invariant Distinct(unfetched)
      invariant Elements(unfetched) == Unfetched(secret, table, requested[..n], fetched)
    {
      var record := requested[n];
      assert requested[..n + 1] == requested[..n] + [record];
      if record.sysId in fetched {
        unfetched := CollectFromRecord(secret, table, record, fetched, unfetched);
      } else {
        AsksNothing(secret, table, [record], fetched);
      }
      AddsOneRecord(secret, table, requested[..n], record, fetched);
    }
    assert requested[..|requested|] == requested;
    SortKeepsElements(unfetched);
    SortKeepsDistinct(unfetched);
    r := Sort(unfetched);
    assert Elements(r) == Elements(unfetched);
    assert r != [] ==> r[0] in Elements(r);
  }

  /** The same for one record that came back, added to what was found before it. */
  method CollectFromRecord(
      secret: SecretRule, table: string, record: RecordWork, fetched: Fetched, found: seq<string>)
    returns (unfetched: seq<string>)
    requires Distinct(found) && record.sysId in fetched
    ensures Distinct(unfetched)
    ensures Elements(unfetched) == Elements(found) + Unfetched(secret, table, [record], fetched)
  {
    unfetched := found;
    AsksNothing(secret, table, [RecordWork(record.sysId, record.files[..0])], fetched);
    hide Unfetched;
    for m := 0 to |record.files|
      invariant Distinct(unfetched)
      invariant Elements(unfetched) == Elements(found)
        + Unfetched(secret, table, [RecordWork(record.sysId, record.files[..m])], fetched)
    {
      var file := record.files[m];
      AddsOneFile(secret, table, record, m, fetched);
      if file.name != META_FILE_NAME && !secret(table, file.name)
         && file.name !in fetched[record.sysId] && file.name !in unfetched {
        assert Elements(unfetched + [file.name]) == Elements(unfetched) + {file.name};
        unfetched := unfetched + [file.name];
      } else {
        assert file.name in unfetched ==> file.name in Elements(unfetched);
      }
    }
    assert RecordWork(record.sysId, record.files[..|record.files|]) == record;
  }

  lemma AsksNothing(secret: SecretRule, table: string, requested: seq<RecordWork>, fetched: Fetched)
    requires forall r :: r in requested ==> r.files == [] || r.sysId !in fetched
    ensures Unfetched(secret, table, requested, fetched) == {}
  {}

  lemma AddsOneRecord(
      secret: SecretRule, table: string, requested: seq<RecordWork>, record: RecordWork, fetched: Fetched)
    ensures Unfetched(secret, table, requested + [record], fetched)
      == Unfetched(secret, table, requested, fetched) + Unfetched(secret, table, [record], fetched)
  {}

  lemma AddsOneFile(secret: SecretRule, table: string, record: RecordWork, m: nat, fetched: Fetched)
    requires m < |record.files| && record.sysId in fetched
    ensures var name := record.files[m].name;
      Unfetched(secret, table, [RecordWork(record.sysId, record.files[..m + 1])], fetched)
      == Unfetched(secret, table, [RecordWork(record.sysId, record.files[..m])], fetched)
         + (if name != META_FILE_NAME && !secret(table, name) && name !in fetched[record.sysId] then {name} else {})
  {}

  /** The tables of a list that came back with a gap, in order. */
  function Gaps(secret: SecretRule, missing: Missing, tables: seq<string>, fetch: string -> Fetched): seq<string> {
    if tables == [] then []
    else
      var last := tables[|tables| - 1];
      var before := Gaps(secret, missing, tables[..|tables| - 1], fetch);
      if Complete(secret, last, RecordsOf(missing, last), fetch(last)) then before else before + [last]
  }

  lemma GapsNext(secret: SecretRule, missing: Missing, tables: seq<string>, fetch: string -> Fetched)
    requires tables != []
    ensures var last, before := tables[|tables| - 1], Gaps(secret, missing, tables[..|tables| - 1], fetch);
      Gaps(secret, missing, tables, fetch) ==
        if Complete(secret, last, RecordsOf(missing, last), fetch(last)) then before else before + [last]
  {}

  lemma {:induction false} GapsAre(secret: SecretRule, missing: Missing, tables: seq<string>, fetch: string -> Fetched)
    ensures forall t :: t in Gaps(secret, missing, tables, fetch) <==>
      t in tables && !Complete(secret, t, RecordsOf(missing, t), fetch(t))
  {
    hide Complete, RecordsOf;
    if tables != [] {
      GapsAre(secret, missing, tables[..|tables| - 1], fetch);
      assert tables == tables[..|tables| - 1] + [tables[|tables| - 1]];
    }
  }

  /** What the run had still to do. */
  lemma {:induction false} TodoIs(disk: Disk, job: Job)
    ensures forall t ::
      t in Begin(disk, job).run.value.pending <==> t in TablesOf(job.missing) && t !in Resumed(disk, job)
  {
    hide Normalized;
  }

  /** A table the run had to do and whose answer left a gap. */
  ghost predicate HasGap(secret: SecretRule, disk: Disk, job: Job, fetch: string -> Fetched, t: string) {
    t !in Resumed(disk, job) && exists w :: w in job.missing && w.table == t && !Gapless(secret, w, fetch(t))
  }

  lemma {:induction false} GapsAreSeen(secret: SecretRule, disk: Disk, job: Job, fetch: string -> Fetched)
    requires Distinct(TablesOf(job.missing))
    ensures var todo := Begin(disk, job).run.value.pending;
      forall t :: t in Gaps(secret, job.missing, todo, fetch) <==> HasGap(secret, disk, job, fetch, t)
  {
    var todo := Begin(disk, job).run.value.pending;
    GapsAre(secret, job.missing, todo, fetch);
    TodoIs(disk, job);
    hide Begin, Complete, RecordsOf, Resumed, Gapless;
    forall t ensures t in Gaps(secret, job.missing, todo, fetch) <==> HasGap(secret, disk, job, fetch, t) {
      forall w | w in job.missing && w.table == t
        ensures t in TablesOf(job.missing)
        ensures Complete(secret, t, RecordsOf(job.missing, t), fetch(t)) <==> Gapless(secret, w, fetch(t))
      {
        var k :| 0 <= k < |job.missing| && job.missing[k] == w;
        assert TablesOf(job.missing)[k] == t;
        CompleteExactlyWhenGapless(secret, job.missing, w, fetch(t));
      }
      if t in TablesOf(job.missing) {
        var k :| 0 <= k < |job.missing| && TablesOf(job.missing)[k] == t;
        assert job.missing[k] in job.missing;
      }
    }
  }

  /** Everything done was adopted, or is one of the tables seen and complete. */
  ghost predicate Earned(
      secret: SecretRule, disk: Disk, job: Job, fetch: string -> Fetched, seen: seq<string>, done: seq<string>)
  {
    forall t :: t in done ==>
      t in Resumed(disk, job) || (t in seen && Complete(secret, t, RecordsOf(job.missing, t), fetch(t)))
  }

  /** The checkpoint on disk would give this job nothing that is not done. */
  ghost predicate Within(disk: Disk, job: Job, done: seq<string>) {
    forall t :: t in Resumed(disk, job) ==> t in done
  }

  lemma {:induction false} EarnedNext(
      secret: SecretRule, disk: Disk, job: Job, fetch: string -> Fetched, pending: seq<string>, i: nat,
      before: seq<string>, done: seq<string>)
    requires i < |pending| && Earned(secret, disk, job, fetch, pending[..i], before)
    requires forall t :: t in done ==>
      t in before || (t == pending[i] && Complete(secret, t, RecordsOf(job.missing, t), fetch(t)))
    ensures Earned(secret, disk, job, fetch, pending[..i + 1], done)
  {
    hide Complete, RecordsOf, Resumed;
    assert pending[..i + 1] == pending[..i] + [pending[i]];
  }

  lemma {:induction false} GapsStayOff(
      secret: SecretRule, disk: Disk, job: Job, fetch: string -> Fetched,
      seen: seq<string>, done: seq<string>, end: Disk)
    requires Distinct(TablesOf(job.missing))
    requires Earned(secret, disk, job, fetch, seen, done) && Within(end, job, done)
    ensures forall t :: HasGap(secret, disk, job, fetch, t) ==> t !in Resumed(end, job)
  {
    hide Complete, RecordsOf, Resumed, Gapless;
    forall t | HasGap(secret, disk, job, fetch, t) ensures t !in Resumed(end, job) {
      var w :| w in job.missing && w.table == t && !Gapless(secret, w, fetch(t));
      CompleteExactlyWhenGapless(secret, job.missing, w, fetch(t));
    }
  }

  /** The effects of one run so far, none of them the last one, and where they lead. */
  ghost predicate Underway(secret: SecretRule, start: State, job: Job, events: seq<Event>, s: State) {
    && Leads(secret, start, [Begins(job)] + events, s)
    && forall e :: e in events ==> !e.Begins? && !e.CheckpointDeleted?
  }

  /** The run is over, with or without clearing its checkpoint. */
  ghost predicate Over(secret: SecretRule, disk: Disk, job: Job, events: seq<Event>, cleared: bool, end: Disk) {
    && Leads(secret, State(disk, None), [Begins(job)] + events, State(end, None))
    && (forall e :: e in events ==> !e.Begins?)
    && (cleared <==> events != [] && events[|events| - 1] == CheckpointDeleted)
  }

  datatype Verdict = Completed | Gapped | Lost

  class Workspace {
    var file: CheckpointFile
    var local: map<string, Deliveries>

    ghost function OnDisk(): Disk
      reads this
    {
      Disk(file, local)
    }

    /**
      One run. `life` is how many of its effects succeed before a request or a write
      fails or the process is killed.
     */
    method DownloadTablesWithResume(
        secret: SecretRule, job: Job, fetch: string -> Fetched, refuses: string -> set<FileRef>, life: nat)
      returns (outcome: Outcome, ghost events: seq<Event>)
      requires forall t :: Answers(RecordsOf(job.missing, t), fetch(t))
      modifies this
      ensures Over(secret, old(OnDisk()), job, events, outcome.Finished?, OnDisk())
      ensures outcome.Finished? ==> file == Absent
      ensures !outcome.Died? ==>
        var todo := Begin(old(OnDisk()), job).run.value.pending;
        Gaps(secret, job.missing, todo, fetch) == if outcome.Incomplete? then outcome.failed else []
      ensures outcome.Incomplete? ==> outcome.failed != []
      ensures Distinct(TablesOf(job.missing)) ==>
        && (outcome.Incomplete? ==> forall t :: t in outcome.failed <==> HasGap(secret, old(OnDisk()), job, fetch, t))
        && (outcome.Finished? ==> forall t :: !HasGap(secret, old(OnDisk()), job, fetch, t))
        && (forall t :: HasGap(secret, old(OnDisk()), job, fetch, t) ==> t !in Resumed(OnDisk(), job))
    {
      hide Begin, Underway, Over, Leads, Legal, After, Step, Judge, Unfetched, RecordsOf, Dedup, Without, Elements,
        Normalized, TablesOf, Complete, Answers, HasGap, Earned, Within, Resumed, Enabled, Distinct, Gaps;
      Starts(secret, OnDisk(), job, fetch);
      var completed := if Accepts(file, job) then Dedup(file.checkpoint.completedTables) else [];
      var pending := Without(TablesOf(job.missing), Elements(completed));
      var failed: seq<string> := [];
      var left := life;
      ghost var start := State(OnDisk(), None);
      events := [];
      ghost var before := OnDisk();
      assert pending[..0] == [] && pending[0..] == pending;
      for i := 0 to |pending|
        invariant Underway(secret, start, job, events,
                    Continue(OnDisk(), Run(job, completed, pending[i..], failed, Fetching)))
        invariant failed == Gaps(secret, job.missing, pending[..i], fetch)
        invariant Earned(secret, before, job, fetch, pending[..i], completed) && Within(OnDisk(), job, completed)
      {
        var table := pending[i];
        assert pending[..i + 1][..i] == pending[..i];
        assert pending[i..][1..] == pending[i + 1..];
        var verdict;
        ghost var was := completed;
        verdict, completed, left, events :=
          DownloadTable(
            secret, start, events, job, completed, pending[i..], failed, fetch(table), refuses(table), left);
        if verdict.Lost? {
          StopsUncleared(secret, before, job, events, OnDisk());
          if Distinct(TablesOf(job.missing)) {
            GapsStayOff(secret, before, job, fetch, pending[..i], was, OnDisk());
          }
          return Died, events;
        }
        EarnedNext(secret, before, job, fetch, pending, i, was, completed);
        GapsNext(secret, job.missing, pending[..i + 1], fetch);
        if verdict.Gapped? { failed := failed + [table]; }
      }
      assert pending[..|pending|] == pending;
      if Distinct(TablesOf(job.missing)) {
        GapsStayOff(secret, before, job, fetch, pending, completed, OnDisk());
        NothingToResume(OnDisk().(file := Absent), job);
      }
      if failed != [] {
        StopsUncleared(secret, before, job, events, OnDisk());
        return Incomplete(failed), events;
      }
      outcome, events := ClearCheckpoint(secret, before, job, completed, events, left);
    }

    /** The end of a run without failed tables. */
    method ClearCheckpoint(
        secret: SecretRule, ghost before: Disk, job: Job, ghost completed: seq<string>, ghost trail: seq<Event>,
        left: nat)
      returns (outcome: Outcome, ghost events: seq<Event>)
      requires Underway(secret, State(before, None), job, trail,
        State(OnDisk(), Some(Run(job, completed, [], [], Deleting))))
      modifies this`file
      ensures Over(secret, before, job, events, outcome.Finished?, OnDisk())
      ensures (outcome.Finished? && file == Absent) || (outcome.Died? && file == old(file))
    {
      hide Underway, Over;
      ghost var s := State(OnDisk(), Some(Run(job, completed, [], [], Deleting)));
      if left == 0 {
        events := Log(secret, State(before, None), job, trail, s, Killed);
        return Died, events;
      }
      file := Absent;
      events := Log(secret, State(before, None), job, trail, s, CheckpointDeleted);
      outcome := Finished;
    }

    /** One turn of the loop: fetch the table, write it, judge it, checkpoint it. */
    method DownloadTable(
        secret: SecretRule, ghost start: State, ghost trail: seq<Event>, job: Job,
        completed: seq<string>, pending: seq<string>, failed: seq<string>, fetched: Fetched, refused: set<FileRef>,
        life: nat)
      returns (verdict: Verdict, done: seq<string>, left: nat, ghost events: seq<Event>)
      requires Within(OnDisk(), job, completed)
      requires pending != [] && Answers(RecordsOf(job.missing, pending[0]), fetched)
      requires Underway(secret, start, job, trail,
        State(OnDisk(), Some(Run(job, completed, pending, failed, Fetching))))
      modifies this
      ensures verdict.Lost? ==> Underway(secret, start, job, events, State(OnDisk(), None))
      ensures Within(OnDisk(), job, if verdict.Lost? then completed else done)
      ensures forall t :: t in done ==> t in completed || (t == pending[0] && !verdict.Gapped?)
      ensures !verdict.Lost? ==>
        && (verdict.Completed? <==> Complete(secret, pending[0], RecordsOf(job.missing, pending[0]), fetched))
        && Underway(secret, start, job, events, Continue(OnDisk(), Run(job, done, pending[1..],
             if verdict.Gapped? then failed + [pending[0]] else failed, Fetching)))
    {
      hide Underway, Complete, RecordsOf, Normalized, Answers, Judge;
      ghost var s := State(OnDisk(), Some(Run(job, completed, pending, failed, Fetching)));
      done, left, events := completed, life, trail;
      if left == 0 {
        events := Log(secret, start, job, events, s, Killed);
        return Lost, done, left, events;
      }
      left := left - 1;
      events := Log(secret, start, job, events, s, FetchReturns(fetched));
      verdict, done, left, events :=
        WriteTable(secret, start, events, job, completed, pending, failed, fetched, refused, left);
      if !verdict.Completed? { return verdict, done, left, events; }
      s := State(OnDisk(), Some(Run(job, done, pending, failed, Checkpointing)));
      if left == 0 {
        events := Log(secret, start, job, events, s, Killed);
        return Lost, done, left, events;
      }
      left := left - 1;
      file := Present(Checkpoint(job.scope, Some(job.fingerprint), job.instance, done));
      events := Log(secret, start, job, events, s, CheckpointWritten);
    }

    /** The write of a fetched table and the verdict on it. */
    method WriteTable(
        secret: SecretRule, ghost start: State, ghost trail: seq<Event>, job: Job,
        completed: seq<string>, pending: seq<string>, failed: seq<string>, fetched: Fetched, refused: set<FileRef>,
        life: nat)
      returns (verdict: Verdict, done: seq<string>, left: nat, ghost events: seq<Event>)
      requires pending != []
      requires Underway(secret, start, job, trail,
                 State(OnDisk(), Some(Run(job, completed, pending, failed, Starting(fetched)))))
      modifies this`local
      ensures verdict.Lost? ==> Underway(secret, start, job, events, State(OnDisk(), None))
      ensures !verdict.Lost? ==>
        (verdict.Completed? <==> Complete(secret, pending[0], RecordsOf(job.missing, pending[0]), fetched))
      ensures verdict.Completed? ==>
        Underway(secret, start, job, events, State(OnDisk(), Some(Run(job, done, pending, failed, Checkpointing))))
      ensures forall t :: t in done ==> t in completed || (t == pending[0] && !verdict.Gapped?)
      ensures verdict.Gapped? ==>
        && done == completed
        && Underway(secret, start, job, events,
             Continue(OnDisk(), Run(job, completed, pending[1..], failed + [pending[0]], Fetching)))
    {
      hide Underway, Unfetched, RecordsOf, Normalized, Answers, BroughtBy, Untouched;
      var table := pending[0];
      ghost var s := State(OnDisk(), Some(Run(job, completed, pending, failed, Starting(fetched))));
      done, left, events := completed, life, trail;
      if left == 0 {
        events := Log(secret, start, job, events, s, Killed);
        return Lost, done, left, events;
      }
      left := left - 1;
      var requested := RecordsOf(job.missing, table);
      var brought := BroughtBy(requested, fetched);
      var standing := Untouched(if table in local then local[table] else map[], brought - refused);
      local := local[table := standing];
      events := Log(secret, start, job, events, s, WriteStarts(refused));
      s := Step(secret, s, WriteStarts(refused));
      if left == 0 {
        events := Log(secret, start, job, events, s, Killed);
        return Lost, done, left, events;
      }
      left := left - 1;
      var unfetched := CollectUnfetchedFields(secret, table, requested, fetched);
      var complete := (requested == [] || fetched != map[]) && unfetched == [];
      if complete {
        local := local[table := standing[KeyOf(job) := Delivery(brought - refused, brought * refused)]];
        done := if table in completed then completed else completed + [table];
      }
      events := Log(secret, start, job, events, s, WriteReturns);
      verdict := if complete then Completed else Gapped;
    }
  }

  lemma NothingToResume(disk: Disk, job: Job)
    requires disk.file == Absent
    ensures Resumed(disk, job) == {}
  {}

  /** How the loop starts. */
  lemma {:induction false} Starts(secret: SecretRule, disk: Disk, job: Job, fetch: string -> Fetched)
    ensures var completed := if Accepts(disk.file, job) then Dedup(disk.file.checkpoint.completedTables) else [];
      var pending := Without(TablesOf(job.missing), Elements(completed));
      && pending == Begin(disk, job).run.value.pending
      && Underway(secret, State(disk, None), job, [], Continue(disk, Run(job, completed, pending, [], Fetching)))
      && Earned(secret, disk, job, fetch, [], completed) && Within(disk, job, completed)
      && Gaps(secret, job.missing, [], fetch) == []
    ensures Distinct(TablesOf(job.missing)) ==>
      forall t :: t in Gaps(secret, job.missing, Begin(disk, job).run.value.pending, fetch)
        <==> HasGap(secret, disk, job, fetch, t)
  {
    hide Underway, Normalized, Complete, HasGap;
    BeginLeads(secret, disk, job);
    if Distinct(TablesOf(job.missing)) { GapsAreSeen(secret, disk, job, fetch); }
  }

  lemma BeginLeads(secret: SecretRule, disk: Disk, job: Job)
    ensures Underway(secret, State(disk, None), job, [], Begin(disk, job))
  {
    var none: seq<Event> := [];
    var one := [Begins(job)] + none;
    assert one[1..] == none;
    assert Legal(secret, Begin(disk, job), one[1..]);
    assert Leads(secret, State(disk, None), one, Begin(disk, job));
  }

  lemma StopsUncleared(secret: SecretRule, disk: Disk, job: Job, events: seq<Event>, end: Disk)
    requires Underway(secret, State(disk, None), job, events, State(end, None))
    ensures Over(secret, disk, job, events, false, end)
  {}

  ghost method Log(secret: SecretRule, start: State, job: Job, events: seq<Event>, s: State, e: Event)
    returns (longer: seq<Event>)
    requires Underway(secret, start, job, events, s) && Enabled(s, e) && !e.Begins?
    ensures longer == events + [e]
    ensures !e.CheckpointDeleted? ==> Underway(secret, start, job, longer, Step(secret, s, e))
    ensures Leads(secret, start, [Begins(job)] + longer, Step(secret, s, e))
    ensures start.run.None? && Step(secret, s, e).run.None? ==>
      Over(secret, start.disk, job, longer, e.CheckpointDeleted?, Step(secret, s, e).disk)
  {
    longer := events + [e];
    OneMore(secret, start, [Begins(job)] + events, s, e);
    assert [Begins(job)] + longer == [Begins(job)] + events + [e];
  }
}
