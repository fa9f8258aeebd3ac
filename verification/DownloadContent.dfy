/**
  What a checkpoint says about the files now on disk, rather than about what was
  once written: where it can go stale, and exactly when it cannot.
 */
module DownloadContent {
  import opened Collections
  import opened DownloadResume
  import opened DownloadTheorems

  // --- Runs that name no instance ---------------------------------------------

  /**
    A run that names no instance takes over whatever instance's checkpoint it
    finds. It adopts only its own work, for every history that justifies the
    checkpoint, if and only if one of these three holds.
   */
  lemma {:induction false} AdoptsOnlyItsOwnWork(secret: SecretRule, disk: Disk, job: Job)
    requires Accepts(disk.file, job)
    ensures (forall ledger: Ledger ::
              Justified(secret, disk.file, ledger) ==> RunJustified(secret, Begin(disk, job).run.value, ledger))
      <==> (job.instance.Some? || Normalized(disk.file.checkpoint.instance) == Normalized(None)
            || disk.file.checkpoint.completedTables == [])
  {
    var c := disk.file.checkpoint;
    var run := Begin(disk, job).run.value;
    assert run.completed == Dedup(c.completedTables);
    hide Backed, Normalized, Dedup, Without, Elements;
    var own := ItsOwnHistory(secret, c);
    assert Justified(secret, disk.file, own);
    if CheckpointKey(c) != KeyOf(job) && c.completedTables != [] {
      assert c.completedTables[0] in c.completedTables && c.completedTables[0] in run.completed;
      assert !RunJustified(secret, run, own);
    }
  }

  /** A history in which exactly the checkpoint's own work was done. */
  lemma {:induction false} ItsOwnHistory(secret: SecretRule, c: Checkpoint) returns (own: Ledger)
    requires c.fingerprint.Some?
    ensures forall t :: t in c.completedTables ==> Backed(secret, own, CheckpointKey(c), t)
    ensures forall key, t :: key != CheckpointKey(c) ==> !Backed(secret, own, key, t)
  {
    hide Normalized;
    var tables := c.completedTables;
    own := seq(|tables|, i requires 0 <= i < |tables| =>
      Receipt(Job(c.scope, c.fingerprint.value, c.instance, [TableWork(tables[i], [])]), tables[i], map[]));
    forall t | t in tables ensures Backed(secret, own, CheckpointKey(c), t) {
      var i :| 0 <= i < |tables| && tables[i] == t;
      assert TableWork(t, []) in own[i].job.missing;
      assert Backs(secret, own[i], CheckpointKey(c), t);
    }
  }

  // --- The files behind the checkpoint ----------------------------------------

  /** Every table the checkpoint lists is on disk as its own run left it. */
  ghost predicate FilesStand(disk: Disk) {
    disk.file.Present? && disk.file.checkpoint.fingerprint.Some? ==>
      forall t :: t in disk.file.checkpoint.completedTables ==> CheckpointKey(disk.file.checkpoint) in Standing(disk, t)
  }

  predicate Lists(file: CheckpointFile, table: string) {
    file.Present? && file.checkpoint.fingerprint.Some? && table in file.checkpoint.completedTables
  }

  /** The checkpoint lists the table, and one of these files belongs to the delivery it speaks for. */
  predicate Overwrites(disk: Disk, table: string, files: set<FileRef>) {
    && Lists(disk.file, table)
    && CheckpointKey(disk.file.checkpoint) in Standing(disk, table)
    && !(Standing(disk, table)[CheckpointKey(disk.file.checkpoint)].written !! files)
  }

  /** Starting a write invalidates the checkpoint on disk exactly when it touches a file of a listed delivery. */
  lemma WritingSparesTheCheckpoint(secret: SecretRule, s: State, refused: set<FileRef>)
    requires Enabled(s, WriteStarts(refused)) && FilesStand(s.disk)
    ensures var run := s.run.value;
      var touched := BroughtBy(RecordsOf(run.job.missing, run.pending[0]), run.stage.fetched) - refused;
      FilesStand(Step(secret, s, WriteStarts(refused)).disk) <==> !Overwrites(s.disk, run.pending[0], touched)
  {
    hide BroughtBy, RecordsOf;
    var s1 := Step(secret, s, WriteStarts(refused));
    assert forall t :: t != s.run.value.pending[0] ==> Standing(s1.disk, t) == Standing(s.disk, t);
  }

  ghost predicate Leads(secret: SecretRule, s: State, events: seq<Event>, end: State) {
    Legal(secret, s, events) && After(secret, s, events) == end
  }

  /** The answer that leaves nothing out. */
  function Everything(requested: seq<RecordWork>): (all: Fetched) {
    map r | r in requested :: r.sysId := set ref | ref in Answerable(requested) && ref.sysId == r.sysId :: ref.file.name
  }

  lemma {:induction false} ColumnsCover(requested: seq<RecordWork>, r: RecordWork, f: File)
    requires r in requested && f in r.files && f.name != META_FILE_NAME
    ensures f.name in Columns(requested)
  {
    var last := requested[|requested| - 1];
    assert requested == requested[..|requested| - 1] + [last];
    if r in requested[..|requested| - 1] {
      ColumnsCover(requested[..|requested| - 1], r, f);
    } else {
      TypesCover(last.files, f);
    }
  }

  lemma {:induction false} TypesCover(files: seq<File>, f: File)
    requires f in files && f.name != META_FILE_NAME
    ensures f.name in TypesOf(files)
  {
    var last := files[|files| - 1];
    assert files == files[..|files| - 1] + [last];
    if f in files[..|files| - 1] {
      TypesCover(files[..|files| - 1], f);
    }
  }

  /** An instance may return everything; the table is then complete, and every file it could bring is written. */
  lemma {:induction false} EverythingIsComplete(secret: SecretRule, t: string, requested: seq<RecordWork>)
    ensures Answers(requested, Everything(requested))
    ensures Complete(secret, t, requested, Everything(requested))
    ensures BroughtBy(requested, Everything(requested)) == Answerable(requested)
  {
    var all := Everything(requested);
    forall r, f | r in requested && f in r.files && f.name != META_FILE_NAME
      ensures f.name in all[r.sysId]
    {
      ColumnsCover(requested, r, f);
      assert FileRef(r.sysId, File(f.name, Columns(requested)[f.name])) in Answerable(requested);
    }
    if requested != [] {
      assert requested[0].sysId in all;
    }
  }

  function TwoInstances(dev: Job, test: Job, all: Fetched): seq<Event> {
    [Begins(dev), FetchReturns(all)] + ([WriteStarts({}), WriteReturns] + ([CheckpointWritten, Killed]
    + ([Begins(test), FetchReturns(all)] + ([WriteStarts({}), Killed]
    + ([Begins(dev), CheckpointDeleted] + [])))))
  }

  /**
    The files can go stale behind a checkpoint: a run is killed after checkpointing
    its one table, a run against another instance is killed while it rewrites that
    table, and the first run, resumed, clears the checkpoint and reports success
    although no delivery of the table stands any more.
   */
  lemma {:induction false} TornBehindTheCheckpoint(
      secret: SecretRule, t: string, records: seq<RecordWork>, dev: Job, test: Job)
    requires dev.missing == test.missing == [TableWork(t, records)] && Answerable(records) != {}
    requires dev.instance.Some? && test.instance.Some? && Normalized(dev.instance) != Normalized(test.instance)
    ensures var start := State(Disk(Absent, map[]), None);
      Leads(secret, start, TwoInstances(dev, test, Everything(records)), State(Disk(Absent, map[t := map[]]), None))
  {
    var all := Everything(records);
    var start := State(Disk(Absent, map[]), None);
    var s2, s4, s6 := FirstRunKilled(secret, t, records, dev);
    var s8, s10 := ForeignRunKilled(secret, t, records, dev, test, s6);
    ResumedRunFinishes(secret, t, records, dev, s10);
    var end := State(Disk(Absent, map[t := map[]]), None);
    assert Leads(secret, end, [], end);
    TornTail(secret, dev, test, all, s6, s8, s10, end);
    hide Legal, After, Enabled, Step, Leads, Normalized, Everything, Answerable;
    var tail := [Begins(test), FetchReturns(all)]
      + ([WriteStarts({}), Killed] + ([Begins(dev), CheckpointDeleted] + []));
    TwoSteps(secret, s4, CheckpointWritten, Killed, tail, end);
    TwoSteps(secret, s2, WriteStarts({}), WriteReturns, [CheckpointWritten, Killed] + tail, end);
    TwoSteps(secret, start, Begins(dev), FetchReturns(all),
      [WriteStarts({}), WriteReturns] + ([CheckpointWritten, Killed] + tail), end);
  }

  lemma TornTail(secret: SecretRule, dev: Job, test: Job, all: Fetched, s6: State, s8: State, s10: State, end: State)
    requires Enabled(s6, Begins(test)) && Enabled(Step(secret, s6, Begins(test)), FetchReturns(all))
    requires s8 == Step(secret, Step(secret, s6, Begins(test)), FetchReturns(all))
    requires Enabled(s8, WriteStarts({})) && Enabled(Step(secret, s8, WriteStarts({})), Killed)
    requires s10 == Step(secret, Step(secret, s8, WriteStarts({})), Killed)
    requires Enabled(s10, Begins(dev)) && Enabled(Step(secret, s10, Begins(dev)), CheckpointDeleted)
    requires Leads(secret, Step(secret, Step(secret, s10, Begins(dev)), CheckpointDeleted), [], end)
    ensures Leads(secret, s6, [Begins(test), FetchReturns(all)]
      + ([WriteStarts({}), Killed] + ([Begins(dev), CheckpointDeleted] + [])), end)
  {
    hide *;
    TwoSteps(secret, s10, Begins(dev), CheckpointDeleted, [], end);
    TwoSteps(secret, s8, WriteStarts({}), Killed, [Begins(dev), CheckpointDeleted] + [], end);
    TwoSteps(secret, s6, Begins(test), FetchReturns(all),
      [WriteStarts({}), Killed] + ([Begins(dev), CheckpointDeleted] + []), end);
  }

  lemma BeginOneTable(disk: Disk, job: Job, t: string, records: seq<RecordWork>)
    requires job.missing == [TableWork(t, records)]
    ensures RecordsOf(job.missing, t) == records
    ensures !Accepts(disk.file, job) ==> Begin(disk, job) == State(disk, Some(Run(job, [], [t], [], Fetching)))
    ensures Accepts(disk.file, job) && disk.file.checkpoint.completedTables == [t] ==>
      Begin(disk, job) == State(disk, Some(Run(job, [t], [], [], Deleting)))
  {
    assert TablesOf(job.missing) == [t];
    assert Elements<string>([]) == {} && Without([t], {}) == [t];
    var ts := [t];
    assert Elements(ts) == {t} && Dedup(ts) == ts;
    assert ts[..0] == [] && Without(ts, {t}) == Without([], {t}) == [];
  }

  /** The checkpoint after the first run's one table. */
  function Checkpointed(dev: Job, t: string): CheckpointFile {
    Present(Checkpoint(dev.scope, Some(dev.fingerprint), dev.instance, [t]))
  }

  /** A run at its one table. */
  function AtWork(disk: Disk, job: Job, t: string, completed: seq<string>, stage: Stage): State {
    State(disk, Some(Run(job, completed, [t], [], stage)))
  }

  /** What the write of a full answer delivers. */
  function AsDelivered(records: seq<RecordWork>, refused: set<FileRef>): Delivery {
    Delivery(Answerable(records) - refused, Answerable(records) * refused)
  }

  lemma NothingRefused(records: seq<RecordWork>)
    ensures AsDelivered(records, {}) == Delivery(Answerable(records), {})
    ensures Answerable(records) - {} == Answerable(records)
  {
    hide Answerable;
  }

  /** The one table comes back whole and its write begins. */
  lemma WriteBegins(
      secret: SecretRule, t: string, records: seq<RecordWork>, job: Job, disk: Disk, refused: set<FileRef>)
    returns (s2: State, s3: State)
    requires RecordsOf(job.missing, t) == records
    ensures var s := AtWork(disk, job, t, [], Fetching);
      Enabled(s, FetchReturns(Everything(records))) && s2 == Step(secret, s, FetchReturns(Everything(records)))
    ensures Enabled(s2, WriteStarts(refused)) && s3 == Step(secret, s2, WriteStarts(refused))
    ensures var left := Untouched(Standing(disk, t), Answerable(records) - refused);
      s3 == AtWork(Disk(disk.file, disk.local[t := left]), job, t, [], Writing(Everything(records), refused))
  {
    EverythingIsComplete(secret, t, records);
    hide Begin, Judge, Everything, Answerable, BroughtBy, Answers, RecordsOf;
    s2 := AtWork(disk, job, t, [], Starting(Everything(records)));
    s3 := Step(secret, s2, WriteStarts(refused));
  }

  /** The write ends, and the table counts as delivered. */
  lemma WriteEnds(
      secret: SecretRule, t: string, records: seq<RecordWork>, job: Job, disk: Disk, refused: set<FileRef>)
    returns (s4: State)
    requires RecordsOf(job.missing, t) == records
    ensures var s := AtWork(disk, job, t, [], Writing(Everything(records), refused));
      Enabled(s, WriteReturns) && s4 == Step(secret, s, WriteReturns)
    ensures var delivered := Standing(disk, t)[KeyOf(job) := AsDelivered(records, refused)];
      s4 == AtWork(Disk(disk.file, disk.local[t := delivered]), job, t, [t], Checkpointing)
  {
    EverythingIsComplete(secret, t, records);
    hide Begin, KeyOf, Complete, Everything, Answerable, BroughtBy, Answers, RecordsOf;
    assert [] + [t] == [t];
    s4 := Step(secret, AtWork(disk, job, t, [], Writing(Everything(records), refused)), WriteReturns);
  }

  /** One table, from an empty workspace to the point where it counts as delivered. */
  lemma FirstTable(secret: SecretRule, t: string, records: seq<RecordWork>, job: Job, refused: set<FileRef>)
    returns (s2: State, s4: State)
    requires job.missing == [TableWork(t, records)]
    ensures var start := State(Disk(Absent, map[]), None);
      && Enabled(start, Begins(job)) && Enabled(Step(secret, start, Begins(job)), FetchReturns(Everything(records)))
      && s2 == Step(secret, Step(secret, start, Begins(job)), FetchReturns(Everything(records)))
    ensures Enabled(s2, WriteStarts(refused)) && Enabled(Step(secret, s2, WriteStarts(refused)), WriteReturns)
    ensures s4 == Step(secret, Step(secret, s2, WriteStarts(refused)), WriteReturns)
    ensures var local := map[t := map[KeyOf(job) := AsDelivered(records, refused)]];
      s4 == AtWork(Disk(Absent, local), job, t, [t], Checkpointing)
  {
    hide Begin, Judge, Continue, Normalized, Everything, Answerable, Answers, BroughtBy, RecordsOf, AsDelivered;
    var start := Disk(Absent, map[]);
    BeginOneTable(start, job, t, records);
    var s3;
    s2, s3 := WriteBegins(secret, t, records, job, start, refused);
    assert Untouched(map[], Answerable(records) - refused) == map[];
    var empty: map<string, Deliveries> := map[t := map[]];
    s4 := WriteEnds(secret, t, records, job, Disk(Absent, empty), refused);
    var delivered: Deliveries := map[KeyOf(job) := AsDelivered(records, refused)];
    assert map[][KeyOf(job) := AsDelivered(records, refused)] == delivered;
    assert empty[t := delivered] == map[t := delivered];
  }

  lemma FirstRunKilled(secret: SecretRule, t: string, records: seq<RecordWork>, dev: Job)
    returns (s2: State, s4: State, s6: State)
    requires dev.missing == [TableWork(t, records)]
    ensures var start := State(Disk(Absent, map[]), None);
      && Enabled(start, Begins(dev)) && Enabled(Step(secret, start, Begins(dev)), FetchReturns(Everything(records)))
      && s2 == Step(secret, Step(secret, start, Begins(dev)), FetchReturns(Everything(records)))
    ensures Enabled(s2, WriteStarts({})) && Enabled(Step(secret, s2, WriteStarts({})), WriteReturns)
    ensures s4 == Step(secret, Step(secret, s2, WriteStarts({})), WriteReturns)
    ensures Enabled(s4, CheckpointWritten) && Enabled(Step(secret, s4, CheckpointWritten), Killed)
    ensures s6 == Step(secret, Step(secret, s4, CheckpointWritten), Killed)
    ensures s6 == State(Disk(Checkpointed(dev, t), map[t := map[KeyOf(dev) := Delivery(Answerable(records), {})]]),
      None)
  {
    hide Begin, Step, Enabled, Everything, Answerable, AsDelivered;
    NothingRefused(records);
    s2, s4 := FirstTable(secret, t, records, dev, {});
    s6 := KilledOnceCheckpointed(secret, t, dev, s4.disk);
  }

  lemma KilledOnceCheckpointed(secret: SecretRule, t: string, job: Job, disk: Disk) returns (s6: State)
    ensures var s4 := AtWork(disk, job, t, [t], Checkpointing);
      && Enabled(s4, CheckpointWritten) && Enabled(Step(secret, s4, CheckpointWritten), Killed)
      && s6 == Step(secret, Step(secret, s4, CheckpointWritten), Killed)
    ensures s6 == State(Disk(Checkpointed(job, t), disk.local), None)
  {
    s6 := Step(secret, Step(secret, AtWork(disk, job, t, [t], Checkpointing), CheckpointWritten), Killed);
  }

  lemma ForeignRunKilled(
      secret: SecretRule, t: string, records: seq<RecordWork>, dev: Job, test: Job, s: State)
    returns (s8: State, s10: State)
    requires dev.missing == test.missing == [TableWork(t, records)] && Answerable(records) != {}
    requires dev.instance.Some? && test.instance.Some? && Normalized(dev.instance) != Normalized(test.instance)
    requires s == State(Disk(Checkpointed(dev, t), map[t := map[KeyOf(dev) := Delivery(Answerable(records), {})]]),
      None)
    ensures Enabled(s, Begins(test)) && Enabled(Step(secret, s, Begins(test)), FetchReturns(Everything(records)))
    ensures s8 == Step(secret, Step(secret, s, Begins(test)), FetchReturns(Everything(records)))
    ensures Enabled(s8, WriteStarts({})) && Enabled(Step(secret, s8, WriteStarts({})), Killed)
    ensures s10 == Step(secret, Step(secret, s8, WriteStarts({})), Killed)
    ensures s10 == State(Disk(s.disk.file, map[t := map[]]), None)
  {
    hide Begin, Judge, Continue, Normalized, Everything, Answerable, Answers, BroughtBy, RecordsOf;
    BeginOneTable(s.disk, test, t, records);
    var s9;
    NothingRefused(records);
    s8, s9 := WriteBegins(secret, t, records, test, s.disk, {});
    assert Untouched(Standing(s.disk, t), Answerable(records)) == map[];
    assert s.disk.local[t := map[]] == map[t := map[]];
    s10 := Step(secret, s9, Killed);
  }

  lemma ResumedRunFinishes(secret: SecretRule, t: string, records: seq<RecordWork>, dev: Job, s: State)
    requires dev.missing == [TableWork(t, records)] && s.run.None? && s.disk.file == Checkpointed(dev, t)
    ensures Enabled(s, Begins(dev)) && Enabled(Step(secret, s, Begins(dev)), CheckpointDeleted)
    ensures Step(secret, Step(secret, s, Begins(dev)), CheckpointDeleted) == State(Disk(Absent, s.disk.local), None)
  {
    BeginOneTable(s.disk, dev, t, records);
  }

  /** The run can reach a listed table, and may touch its delivery there, before it replaces the checkpoint. */
  ghost predicate Threatens(disk: Disk, requested: Missing, tables: seq<string>) {
    exists k :: 0 <= k < |tables| && Overwrites(disk, tables[k], Answerable(RecordsOf(requested, tables[k])))
      && forall j :: 0 <= j < k ==> RecordsOf(requested, tables[j]) != []
  }

  /** A foreign run may start beside this checkpoint without ever touching the files it speaks for. */
  ghost predicate Spares(disk: Disk, job: Job) {
    Accepts(disk.file, job) || !Threatens(disk, job.missing, TablesOf(job.missing))
  }

  ghost predicate KeepsFiles(secret: SecretRule, s: State) {
    forall events: seq<Event> ::
      Legal(secret, s, events) && (forall e :: e in events ==> !e.Begins?) ==> FilesStand(After(secret, s, events).disk)
  }

  /** The run's own checkpoint is on disk. */
  ghost predicate Own(disk: Disk, run: Run) {
    && disk.file.Present? && disk.file.checkpoint.fingerprint.Some?
    && CheckpointKey(disk.file.checkpoint) == KeyOf(run.job)
    && Elements(disk.file.checkpoint.completedTables) == Adopted(run)
  }

  /** Another work's checkpoint, or none, is on disk, and the run will not touch its files. */
  ghost predicate Beside(disk: Disk, run: Run) {
    && Adopted(run) == {} && !Threatens(disk, run.job.missing, run.pending)
    && (disk.file.Present? && disk.file.checkpoint.fingerprint.Some? ==>
          CheckpointKey(disk.file.checkpoint) != KeyOf(run.job))
  }

  /** What keeps the files standing from one step of a run to the next. */
  ghost predicate Safe(s: State) {
    && FilesStand(s.disk)
    && (s.run.Some? ==>
        var run := s.run.value;
        && Orderly(run)
        && (Own(s.disk, run) || Beside(s.disk, run))
        && (run.stage.Checkpointing? ==> KeyOf(run.job) in Standing(s.disk, run.pending[0])))
  }

  lemma SafeStep(secret: SecretRule, s: State, e: Event)
    requires Safe(s) && Enabled(s, e) && !e.Begins?
    ensures Safe(Step(secret, s, e))
  {
    StepIsOrderly(secret, s, e);
    if s.run.Some? {
      match e
      case WriteStarts(refused) => SafeWrite(secret, s, refused);
      case WriteReturns => SafeJudgement(secret, s);
      case CheckpointWritten => SafeCheckpoint(secret, s);
      case _ =>
    }
  }

  lemma SafeWrite(secret: SecretRule, s: State, refused: set<FileRef>)
    requires Safe(s) && Enabled(s, WriteStarts(refused))
    requires Orderly(Step(secret, s, WriteStarts(refused)).run.value)
    ensures Safe(Step(secret, s, WriteStarts(refused)))
  {
    hide Answerable, RecordsOf, Threatens;
    var run, s1 := s.run.value, Step(secret, s, WriteStarts(refused));
    var table := run.pending[0];
    var requested := RecordsOf(run.job.missing, table);
    var touched := BroughtBy(requested, run.stage.fetched) - refused;
    assert table in run.pending;
    WritingSparesTheCheckpoint(secret, s, refused);
    if Beside(s.disk, run) {
      NotTheFirst(s.disk, run.job.missing, run.pending);
      assert touched <= Answerable(requested);
      SameThreat(s.disk, s1.disk, run.job.missing, run.pending);
    }
  }

  lemma NotTheFirst(disk: Disk, missing: Missing, tables: seq<string>)
    requires tables != [] && !Threatens(disk, missing, tables)
    ensures !Overwrites(disk, tables[0], Answerable(RecordsOf(missing, tables[0])))
  {
    hide Overwrites, Answerable, RecordsOf;
  }

  /** What a run may touch depends on the checkpoint and on the delivery it speaks for. */
  lemma SameThreat(a: Disk, b: Disk, missing: Missing, tables: seq<string>)
    requires !Threatens(a, missing, tables)
    requires a.file == b.file
    requires forall t, files :: t in tables && Overwrites(b, t, files) ==> Overwrites(a, t, files)
    ensures !Threatens(b, missing, tables)
  {
    hide Overwrites, Answerable, RecordsOf;
  }

  lemma SafeJudgement(secret: SecretRule, s: State)
    requires Safe(s) && Enabled(s, WriteReturns)
    requires Step(secret, s, WriteReturns).run.Some? ==> Orderly(Step(secret, s, WriteReturns).run.value)
    ensures Safe(Step(secret, s, WriteReturns))
  {
    hide Answerable, BroughtBy, RecordsOf, Threatens, Complete, Normalized, TablesOf;
    var run, s1 := s.run.value, Step(secret, s, WriteReturns);
    var table := run.pending[0];
    var requested := RecordsOf(run.job.missing, table);
    assert table in run.pending && table !in run.completed;
    assert forall t :: t != table ==> Standing(s1.disk, t) == Standing(s.disk, t);
    if Complete(secret, table, requested, run.stage.fetched) {
      assert Adopted(s1.run.value) == Elements(run.completed);
      if Beside(s.disk, run) {
        SameThreat(s.disk, s1.disk, run.job.missing, run.pending);
      }
    } else if s1.run.Some? && Beside(s.disk, run) {
      assert requested != [] by { AskedForNothing(secret, table, run.stage.fetched); }
      ThreatBehind(s.disk, run.job.missing, run.pending);
    }
  }

  lemma AskedForNothing(secret: SecretRule, table: string, fetched: Fetched)
    ensures Complete(secret, table, [], fetched)
  {}

  /** A run that fails its first table threatens what it threatened behind it. */
  lemma ThreatBehind(disk: Disk, missing: Missing, tables: seq<string>)
    requires tables != [] && RecordsOf(missing, tables[0]) != [] && !Threatens(disk, missing, tables)
    ensures !Threatens(disk, missing, tables[1..])
  {
    hide Overwrites, Answerable, RecordsOf;
    var rest := tables[1..];
    forall k | 0 <= k < |rest| && Overwrites(disk, rest[k], Answerable(RecordsOf(missing, rest[k])))
      ensures exists j :: 0 <= j < k && RecordsOf(missing, rest[j]) == []
    {
      assert rest[k] == tables[k + 1];
      var j :| 0 <= j < k + 1 && RecordsOf(missing, tables[j]) == [];
      assert rest[j - 1] == tables[j];
    }
  }

  lemma SafeCheckpoint(secret: SecretRule, s: State)
    requires Safe(s) && Enabled(s, CheckpointWritten)
    requires Step(secret, s, CheckpointWritten).run.Some? ==> Orderly(Step(secret, s, CheckpointWritten).run.value)
    ensures Safe(Step(secret, s, CheckpointWritten))
  {
    hide Answerable, RecordsOf, Threatens, Normalized;
    var run, s1 := s.run.value, Step(secret, s, CheckpointWritten);
    assert CheckpointKey(s1.disk.file.checkpoint) == KeyOf(run.job);
    forall t | t in run.completed
      ensures KeyOf(run.job) in Standing(s.disk, t)
    {
      if t != run.pending[0] {
        assert t in Adopted(run);
      }
    }
    if s1.run.Some? {
      assert Own(s1.disk, s1.run.value);
    }
  }

  lemma {:induction false} SafeRun(secret: SecretRule, s: State, events: seq<Event>)
    requires Safe(s) && Legal(secret, s, events)
    requires forall e :: e in events ==> !e.Begins?
    ensures FilesStand(After(secret, s, events).disk)
    decreases |events|
  {
    hide Safe, FilesStand, Step, Enabled;
    if events != [] {
      SafeStep(secret, s, events[0]);
      SafeRun(secret, Step(secret, s, events[0]), events[1..]);
    } else {
      SafeStands(s);
    }
  }

  lemma SafeStands(s: State)
    requires Safe(s)
    ensures FilesStand(s.disk)
  {}

  /** The answer that brings one file. */
  function Only(ref: FileRef): Fetched {
    map[ref.sysId := {ref.file.name}]
  }

  /** The way to the first listed table: every table before it comes back empty and is failed; there, one file comes. */
  function Approach(k: nat, ref: FileRef): (events: seq<Event>)
    ensures forall e :: e in events ==> !e.Begins?
  {
    if k == 0 then [FetchReturns(Only(ref)), WriteStarts({})]
    else [FetchReturns(map[]), WriteStarts({}), WriteReturns] + Approach(k - 1, ref)
  }

  /** The file belongs to a listed delivery and can come back for the table. */
  predicate Hits(disk: Disk, missing: Missing, table: string, ref: FileRef) {
    ref in Answerable(RecordsOf(missing, table)) && Overwrites(disk, table, {ref})
  }

  lemma {:induction false} ApproachBreaks(secret: SecretRule, s: State, k: nat, ref: FileRef)
    requires s.run.Some? && s.run.value.stage.Fetching? && k < |s.run.value.pending|
    requires Distinct(s.run.value.pending) && FilesStand(s.disk)
    requires Hits(s.disk, s.run.value.job.missing, s.run.value.pending[k], ref)
    requires forall j :: 0 <= j < k ==> RecordsOf(s.run.value.job.missing, s.run.value.pending[j]) != []
    ensures Legal(secret, s, Approach(k, ref)) && !FilesStand(After(secret, s, Approach(k, ref)).disk)
    decreases k
  {
    hide Hits, FilesStand, Enabled, Step, Legal, After, RecordsOf;
    if k == 0 {
      WriteOverListed(secret, s, ref);
    } else {
      var pending := s.run.value.pending;
      var s2, s3 := FailedTable(secret, s);
      assert s3.run.value.pending[k - 1] == pending[k];
      assert pending[0] != pending[k];
      SameHit(s.disk, s3.disk, s.run.value.job.missing, pending[k], ref);
      forall j | 0 <= j < k - 1
        ensures RecordsOf(s3.run.value.job.missing, s3.run.value.pending[j]) != []
      {
        assert s3.run.value.pending[j] == pending[j + 1];
      }
      ApproachBreaks(secret, s3, k - 1, ref);
      PassFailedTable(secret, s, s2, s3, Approach(k - 1, ref));
    }
  }

  lemma SameHit(a: Disk, b: Disk, missing: Missing, table: string, ref: FileRef)
    requires a.file == b.file && Standing(a, table) == Standing(b, table) && Hits(a, missing, table, ref)
    ensures Hits(b, missing, table, ref)
  {
    hide Answerable, RecordsOf;
  }

  lemma WriteOverListed(secret: SecretRule, s: State, ref: FileRef)
    requires s.run.Some? && s.run.value.stage.Fetching? && s.run.value.pending != [] && FilesStand(s.disk)
    requires Hits(s.disk, s.run.value.job.missing, s.run.value.pending[0], ref)
    ensures Legal(secret, s, Approach(0, ref)) && !FilesStand(After(secret, s, Approach(0, ref)).disk)
  {
    var fetched := Only(ref);
    var requested := RecordsOf(s.run.value.job.missing, s.run.value.pending[0]);
    OneFileCanCome(requested, ref);
    hide Answerable, RecordsOf, BroughtBy, Answers;
    var s1 := Step(secret, s, FetchReturns(fetched));
    WritingSparesTheCheckpoint(secret, s1, {});
    var s2 := Step(secret, s1, WriteStarts({}));
    assert Leads(secret, s2, [], s2);
    hide Legal, FilesStand;
    TwoSteps(secret, s, FetchReturns(fetched), WriteStarts({}), [], s2);
    assert Approach(0, ref) == [FetchReturns(fetched), WriteStarts({})] + [];
  }

  lemma OneFileCanCome(requested: seq<RecordWork>, ref: FileRef)
    requires ref in Answerable(requested)
    ensures Answers(requested, Only(ref)) && ref in BroughtBy(requested, Only(ref))
  {}

  lemma PassFailedTable(secret: SecretRule, s: State, s2: State, s3: State, events: seq<Event>)
    requires Enabled(s, FetchReturns(map[])) && Enabled(Step(secret, s, FetchReturns(map[])), WriteStarts({}))
    requires s2 == Step(secret, Step(secret, s, FetchReturns(map[])), WriteStarts({}))
    requires Enabled(s2, WriteReturns) && s3 == Step(secret, s2, WriteReturns)
    requires Legal(secret, s3, events)
    ensures Leads(secret, s, [FetchReturns(map[]), WriteStarts({}), WriteReturns] + events, After(secret, s3, events))
  {
    hide Step, Enabled;
    var rest := [WriteReturns] + events;
    assert rest[1..] == events;
    var end := After(secret, s3, events);
    assert Leads(secret, s2, rest, end);
    TwoSteps(secret, s, FetchReturns(map[]), WriteStarts({}), rest, end);
    assert [FetchReturns(map[]), WriteStarts({}), WriteReturns] + events ==
      [FetchReturns(map[]), WriteStarts({})] + rest;
  }

  /**
    A table that was asked for and comes back empty is failed, its files untouched, and
    the run goes on to the next.
   */
  lemma FailedTable(secret: SecretRule, s: State) returns (s2: State, s3: State)
    requires s.run.Some? && s.run.value.stage.Fetching? && |s.run.value.pending| > 1
    requires RecordsOf(s.run.value.job.missing, s.run.value.pending[0]) != [] && FilesStand(s.disk)
    ensures Enabled(s, FetchReturns(map[])) && Enabled(Step(secret, s, FetchReturns(map[])), WriteStarts({}))
    ensures s2 == Step(secret, Step(secret, s, FetchReturns(map[])), WriteStarts({}))
    ensures Enabled(s2, WriteReturns) && s3 == Step(secret, s2, WriteReturns)
    ensures s3.run.Some? && s3.run.value.stage.Fetching? && s3.disk.file == s.disk.file && FilesStand(s3.disk)
    ensures forall t :: Standing(s3.disk, t) == Standing(s.disk, t)
    ensures s3.run.value.pending == s.run.value.pending[1..] && s3.run.value.job == s.run.value.job
  {
    hide Answerable, RecordsOf, Unfetched;
    s2 := Step(secret, Step(secret, s, FetchReturns(map[])), WriteStarts({}));
    s3 := Step(secret, s2, WriteReturns);
    var requested := RecordsOf(s.run.value.job.missing, s.run.value.pending[0]);
    assert BroughtBy(requested, map[]) == {};
    var deliveries := Standing(s.disk, s.run.value.pending[0]);
    assert Untouched(deliveries, {}) == deliveries;
  }

  lemma TwoSteps(secret: SecretRule, s: State, e: Event, f: Event, rest: seq<Event>, end: State)
    requires Enabled(s, e) && Enabled(Step(secret, s, e), f)
    requires Leads(secret, Step(secret, Step(secret, s, e), f), rest, end)
    ensures Leads(secret, s, [e, f] + rest, end)
  {
    var all := [e, f] + rest;
    assert all[1..] == [f] + rest;
    assert all[1..][1..] == rest;
  }

  /**
    A run that names its instance leaves every file its predecessor's checkpoint
    speaks for as that checkpoint says, whatever happens to it, if and only if the
    checkpoint is its own or it cannot reach and touch a listed delivery before
    replacing it.
   */
  lemma {:induction false} FilesStandExactlyWhenSpared(secret: SecretRule, disk: Disk, job: Job)
    requires FilesStand(disk) && job.instance.Some? && Distinct(TablesOf(job.missing))
    ensures KeepsFiles(secret, Begin(disk, job)) <==> Spares(disk, job)
  {
    var s := Begin(disk, job);
    BeginIsOrderly(disk, job);
    BeginIsPlain(disk, job);
    hide Begin, Legal, After, Threatens, Answerable, RecordsOf, Orderly, Normalized;
    if Spares(disk, job) {
      assert Safe(s);
      forall events: seq<Event> | Legal(secret, s, events) && (forall e :: e in events ==> !e.Begins?)
        ensures FilesStand(After(secret, s, events).disk)
      {
        SafeRun(secret, s, events);
      }
    } else {
      var k, ref := TheThreat(disk, job.missing, TablesOf(job.missing));
      ApproachBreaks(secret, s, k, ref);
    }
  }

  lemma TheThreat(disk: Disk, missing: Missing, tables: seq<string>) returns (k: nat, ref: FileRef)
    requires Threatens(disk, missing, tables)
    ensures k < |tables| && Hits(disk, missing, tables[k], ref)
    ensures forall j :: 0 <= j < k ==> RecordsOf(missing, tables[j]) != []
  {
    hide RecordsOf, Answerable;
    k :| 0 <= k < |tables| && Overwrites(disk, tables[k], Answerable(RecordsOf(missing, tables[k])))
      && forall j :: 0 <= j < k ==> RecordsOf(missing, tables[j]) != [];
    var delivery := Standing(disk, tables[k])[CheckpointKey(disk.file.checkpoint)];
    ref :| ref in delivery.written && ref in Answerable(RecordsOf(missing, tables[k]));
  }

  /** How a run starts: on its own checkpoint, or with nothing done beside another's. */
  lemma BeginIsPlain(disk: Disk, job: Job)
    requires job.instance.Some?
    ensures var run := Begin(disk, job).run.value;
      && run.job == job && !run.stage.Checkpointing?
      && (Accepts(disk.file, job) ==> Own(disk, run))
      && (!Accepts(disk.file, job) ==>
            && run.completed == [] && run.pending == TablesOf(job.missing)
            && (run.pending != [] ==> run.stage.Fetching?)
            && (disk.file.Present? && disk.file.checkpoint.fingerprint.Some? ==>
                  CheckpointKey(disk.file.checkpoint) != KeyOf(job)))
  {
    WithoutNothing(TablesOf(job.missing));
    assert Elements<string>([]) == {};
  }

  lemma WithoutNothing(xs: seq<string>)
    ensures Without(xs, {}) == xs
  {
    if xs != [] {
      WithoutNothing(xs[..|xs| - 1]);
      assert xs == xs[..|xs| - 1] + [xs[|xs| - 1]];
    }
  }
  // --- Runs one after another -------------------------------------------------

  /** Every run names its instance and finds a checkpoint that is its own or that it spares. */
  ghost predicate AllSpare(secret: SecretRule, s: State, events: seq<Event>)
    requires Legal(secret, s, events)
    decreases |events|
  {
    events != [] ==>
      && (events[0].Begins? ==>
            Tidy(events[0]) && NamesItsInstance(events[0]) && Spares(s.disk, events[0].job))
      && AllSpare(secret, Step(secret, s, events[0]), events[1..])
  }

  lemma SafeBegin(disk: Disk, job: Job)
    requires FilesStand(disk) && Spares(disk, job) && job.instance.Some? && Distinct(TablesOf(job.missing))
    ensures Safe(Begin(disk, job))
  {
    BeginIsOrderly(disk, job);
    BeginIsPlain(disk, job);
    hide Begin, Threatens, Answerable, RecordsOf, Orderly, Normalized;
  }

  lemma {:induction false} SafeThroughout(secret: SecretRule, s: State, events: seq<Event>)
    requires Safe(s) && Legal(secret, s, events) && AllSpare(secret, s, events)
    ensures Safe(After(secret, s, events))
    decreases |events|
  {
    if events != [] {
      SafeNext(secret, s, events[0]);
      hide Safe, Step, Enabled;
      SafeThroughout(secret, Step(secret, s, events[0]), events[1..]);
    }
  }

  lemma SafeNext(secret: SecretRule, s: State, e: Event)
    requires Safe(s) && Enabled(s, e)
    requires e.Begins? ==> Tidy(e) && NamesItsInstance(e) && Spares(s.disk, e.job)
    ensures Safe(Step(secret, s, e))
  {
    hide Safe, Spares, Begin;
    if e.Begins? {
      SafeStands(s);
      SafeBegin(s.disk, e.job);
    } else {
      SafeStep(secret, s, e);
    }
  }

  /**
    Over any runs, each killed anywhere: while every run spares the checkpoint it finds,
    the files stand at every moment as the checkpoint on disk says, and every table of a
    run that reports success is on disk as delivered for that run's own work.
   */
  lemma {:induction false} FilesStandThroughout(secret: SecretRule, disk: Disk, events: seq<Event>)
    requires FilesStand(disk)
    requires Legal(secret, State(disk, None), events) && AllSpare(secret, State(disk, None), events)
    ensures var s := After(secret, State(disk, None), events);
      && FilesStand(s.disk)
      && (Enabled(s, CheckpointDeleted) ==>
            forall t :: t in TablesOf(s.run.value.job.missing) ==> KeyOf(s.run.value.job) in Standing(s.disk, t))
  {
    var start := State(disk, None);
    SafeThroughout(secret, start, events);
    SafeStands(After(secret, start, events));
    if Enabled(After(secret, start, events), CheckpointDeleted) {
      SafeSuccess(After(secret, start, events));
    }
  }

  lemma SafeSuccess(s: State)
    requires Safe(s) && Enabled(s, CheckpointDeleted)
    ensures forall t :: t in TablesOf(s.run.value.job.missing) ==> KeyOf(s.run.value.job) in Standing(s.disk, t)
  {
    hide KeyOf, TablesOf, CheckpointKey, Standing, Threatens;
    var run := s.run.value;
    assert Adopted(run) == Elements(run.completed);
    forall t | t in TablesOf(run.job.missing) ensures KeyOf(run.job) in Standing(s.disk, t) {
      assert t in Elements(TablesOf(run.job.missing));
      assert t in Adopted(run);
      assert t in Elements(s.disk.file.checkpoint.completedTables);
    }
  }

  // --- What a reported success is worth ---------------------------------------

  /** Every file the table's fetch brought is on disk as fetched. */
  predicate Whole(disk: Disk, table: string, key: Key) {
    key in Standing(disk, table) && Standing(disk, table)[key].refused == {}
  }

  /** The files of a table that the writer refused in the course of these events. */
  ghost function Refused(secret: SecretRule, s: State, events: seq<Event>, t: string): set<FileRef>
    requires Legal(secret, s, events)
    decreases |events|
  {
    if events == [] then {}
    else RefusedNow(s, events[0], t) + Refused(secret, Step(secret, s, events[0]), events[1..], t)
  }

  ghost function RefusedNow(s: State, e: Event, t: string): set<FileRef>
    requires Enabled(s, e)
  {
    if e.WriteStarts? && s.run.value.pending[0] == t then
      BroughtBy(RecordsOf(s.run.value.job.missing, t), s.run.value.stage.fetched) * e.refused
    else {}
  }

  /**
    A run that clears its checkpoint and reports success has every file it fetched for
    a table on disk, exactly when the writer refused none of them and the run did not
    adopt the table from a delivery that was incomplete or no longer stood.
   */
  lemma {:induction false} SuccessIsTrueExactlyWhen(
      secret: SecretRule, disk: Disk, job: Job, events: seq<Event>, t: string)
    requires job.instance.Some? && Distinct(TablesOf(job.missing)) && t in TablesOf(job.missing)
    requires Legal(secret, Begin(disk, job), events) && forall e :: e in events ==> !e.Begins?
    requires Enabled(After(secret, Begin(disk, job), events), CheckpointDeleted)
    ensures Whole(After(secret, Begin(disk, job), events).disk, t, KeyOf(job)) <==>
      && (t in Resumed(disk, job) ==> Whole(disk, t, KeyOf(job)))
      && Refused(secret, Begin(disk, job), events, t) == {}
  {
    var s := Begin(disk, job);
    BeginIsOrderly(disk, job);
    BeginIsPlain(disk, job);
    var sound := t in Resumed(disk, job) ==> Whole(disk, t, KeyOf(job));
    assert Delivered(s, job, t, sound, {});
    DeliveredRun(secret, s, job, t, sound, {}, events);
    assert t in Elements(TablesOf(job.missing));
  }

  /** One run that fetches its one table in full, with the files its writer refuses. */
  function OneRun(job: Job, all: Fetched, refused: set<FileRef>): seq<Event> {
    [Begins(job), FetchReturns(all)] + ([WriteStarts(refused), WriteReturns]
    + ([CheckpointWritten, CheckpointDeleted] + []))
  }

  /** A refused file is no gap: the run clears its checkpoint and reports success without the file. */
  lemma {:induction false} SuccessWithoutAFile(
      secret: SecretRule, t: string, records: seq<RecordWork>, job: Job, refused: set<FileRef>)
    requires job.missing == [TableWork(t, records)] && refused <= Answerable(records) && refused != {}
    ensures var end := Disk(Absent, map[t := map[KeyOf(job) := Delivery(Answerable(records) - refused, refused)]]);
      && Leads(secret, State(Disk(Absent, map[]), None), OneRun(job, Everything(records), refused), State(end, None))
      && !Whole(end, t, KeyOf(job))
  {
    var all := Everything(records);
    var s2, s4 := FirstTable(secret, t, records, job, refused);
    assert Answerable(records) * refused == refused;
    var end := State(s4.disk, None);
    ClearedOnceCheckpointed(secret, t, job, s4.disk);
    hide Legal, After, Enabled, Step, Leads, Normalized, Everything, Answerable, Begin;
    TwoSteps(secret, s4, CheckpointWritten, CheckpointDeleted, [], end);
    TwoSteps(secret, s2, WriteStarts(refused), WriteReturns, [CheckpointWritten, CheckpointDeleted] + [], end);
    TwoSteps(secret, State(Disk(Absent, map[]), None), Begins(job), FetchReturns(all),
      [WriteStarts(refused), WriteReturns] + ([CheckpointWritten, CheckpointDeleted] + []), end);
  }

  lemma ClearedOnceCheckpointed(secret: SecretRule, t: string, job: Job, disk: Disk)
    ensures var s4, end := AtWork(disk, job, t, [t], Checkpointing), State(Disk(Absent, disk.local), None);
      && Enabled(s4, CheckpointWritten) && Enabled(Step(secret, s4, CheckpointWritten), CheckpointDeleted)
      && end == Step(secret, Step(secret, s4, CheckpointWritten), CheckpointDeleted)
      && Leads(secret, end, [], end)
  {}

  /**
    Once the run is done with the table, it is whole or not as it was when adopted, less
    what was refused; until then nothing of it was refused but by the write in progress.
   */
  ghost predicate Delivered(s: State, job: Job, t: string, sound: bool, refused: set<FileRef>) {
    s.run.Some? ==>
      var run := s.run.value;
      && run.job == job && Orderly(run)
      && (t in Adopted(run) ==> (Whole(s.disk, t, KeyOf(job)) <==> sound && refused == {}))
      && (t !in Adopted(run) ==> sound)
      && (t in run.pending && (run.stage.Fetching? || run.stage.Starting? || run.pending[0] != t) ==> refused == {})
      && (run.stage.Writing? && run.pending[0] == t ==>
            refused == BroughtBy(RecordsOf(job.missing, t), run.stage.fetched) * run.stage.refused)
      && (run.stage.Checkpointing? && run.pending[0] == t ==> (Whole(s.disk, t, KeyOf(job)) <==> refused == {}))
  }

  lemma {:induction false} DeliveredRun(
      secret: SecretRule, s: State, job: Job, t: string, sound: bool, refused: set<FileRef>, events: seq<Event>)
    requires Delivered(s, job, t, sound, refused) && Legal(secret, s, events)
    requires forall e :: e in events ==> !e.Begins?
    ensures Delivered(After(secret, s, events), job, t, sound, refused + Refused(secret, s, events, t))
    decreases |events|
  {
    hide Delivered, Step, Enabled, RefusedNow;
    if events == [] {
      assert refused + {} == refused;
    } else {
      DeliveredStep(secret, s, events[0], job, t, sound, refused);
      var now := RefusedNow(s, events[0], t);
      var later := Refused(secret, Step(secret, s, events[0]), events[1..], t);
      DeliveredRun(secret, Step(secret, s, events[0]), job, t, sound, refused + now, events[1..]);
      assert refused + now + later == refused + (now + later);
    }
  }

  lemma DeliveredStep(
      secret: SecretRule, s: State, e: Event, job: Job, t: string, sound: bool, refused: set<FileRef>)
    requires Delivered(s, job, t, sound, refused) && Enabled(s, e) && !e.Begins?
    ensures Delivered(Step(secret, s, e), job, t, sound, refused + RefusedNow(s, e, t))
  {
    hide Answerable, BroughtBy, RecordsOf, Complete, KeyOf, TablesOf, CheckpointOf, Answers;
    if s.run.Some? {
      StepIsOrderly(secret, s, e);
      if e.WriteReturns? {
        DeliveredJudgement(secret, s, job, t, sound, refused);
      } else if e.WriteStarts? {
        DeliveredWrite(secret, s, e.refused, job, t, sound, refused);
      } else {
        assert RefusedNow(s, e, t) == {};
        if s.run.value.pending != [] {
          TailIsApart(s.run.value);
        }
      }
    }
  }

  lemma DeliveredWrite(
      secret: SecretRule, s: State, now: set<FileRef>, job: Job, t: string, sound: bool, refused: set<FileRef>)
    requires Delivered(s, job, t, sound, refused) && Enabled(s, WriteStarts(now))
    requires Orderly(Step(secret, s, WriteStarts(now)).run.value)
    ensures Delivered(Step(secret, s, WriteStarts(now)), job, t, sound, refused + RefusedNow(s, WriteStarts(now), t))
  {
    hide Answerable, BroughtBy, RecordsOf, Complete, KeyOf, TablesOf, CheckpointOf, Answers;
    var run, s1 := s.run.value, Step(secret, s, WriteStarts(now));
    assert run.pending[0] in run.pending;
    assert run.pending[0] != t ==> Standing(s1.disk, t) == Standing(s.disk, t);
  }

  lemma DeliveredJudgement(secret: SecretRule, s: State, job: Job, t: string, sound: bool, refused: set<FileRef>)
    requires Delivered(s, job, t, sound, refused) && Enabled(s, WriteReturns)
    requires Step(secret, s, WriteReturns).run.Some? ==> Orderly(Step(secret, s, WriteReturns).run.value)
    ensures Delivered(Step(secret, s, WriteReturns), job, t, sound, refused + RefusedNow(s, WriteReturns, t))
  {
    hide Answerable, BroughtBy, RecordsOf, Complete, KeyOf, TablesOf, CheckpointOf, Answers;
    var run, s1 := s.run.value, Step(secret, s, WriteReturns);
    TailIsApart(run);
    assert run.pending[0] in run.pending;
    assert run.pending[0] != t ==> Standing(s1.disk, t) == Standing(s.disk, t);
    assert refused + RefusedNow(s, WriteReturns, t) == refused;
  }
}
