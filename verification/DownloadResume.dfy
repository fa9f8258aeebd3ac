/**
  The resumable download as a crash-recovery protocol: what is on disk, one run
  suspended between two effects, and the events that can happen next.
 */
module DownloadResume {
  import opened Collections
  import opened JsText

  datatype File = File(name: string, fileType: string)

  /** One record of a table and the files the run asks for. */
  datatype RecordWork = RecordWork(sysId: string, files: seq<File>)

  datatype TableWork = TableWork(table: string, records: seq<RecordWork>)

  /** The missing map, in key order. */
  type Missing = seq<TableWork>

  datatype Checkpoint = Checkpoint(
    scope: string, fingerprint: Option<string>, instance: Option<string>, completedTables: seq<string>)

  datatype CheckpointFile = Absent | Malformed | Present(checkpoint: Checkpoint)

  /** What one run has to do. The digest stands for the SHA-1 of its missing map. */
  datatype Job = Job(scope: string, fingerprint: string, instance: Option<string>, missing: Missing)

  /** The work a checkpoint or a delivery belongs to. */
  datatype Key = Key(scope: string, fingerprint: string, instance: string)

  /** The records the instance returned for one table, with the names of their files. */
  type Fetched = map<string, set<string>>

  /** A local file of a table: the record it belongs to, and its column and type. */
  datatype FileRef = FileRef(sysId: string, file: File)

  /** What one complete fetch of a table left on disk: the files written, and those the writer refused. */
  datatype Delivery = Delivery(written: set<FileRef>, refused: set<FileRef>)

  /** The works whose delivery of a table still stands. */
  type Deliveries = map<Key, Delivery>

  datatype Disk = Disk(file: CheckpointFile, local: map<string, Deliveries>)

  datatype Stage =
    | Fetching
    | Starting(fetched: Fetched)
    | Writing(fetched: Fetched, refused: set<FileRef>)
    | Checkpointing
    | Deleting

  /** A run in progress: the tables still to do, the current one first. */
  datatype Run = Run(job: Job, completed: seq<string>, pending: seq<string>, failed: seq<string>, stage: Stage)

  datatype State = State(disk: Disk, run: Option<Run>)

  datatype Event =
    | Begins(job: Job)
    | FetchReturns(fetched: Fetched)
    | WriteStarts(refused: set<FileRef>)
    | WriteReturns
    | CheckpointWritten
    | CheckpointDeleted
    | Killed

  // --- Instance names ---------------------------------------------------------

  function WithoutScheme(s: string): string {
    if "https://" <= s then s[8..] else if "http://" <= s then s[7..] else s
  }

  function WithoutSlashes(s: string): string {
    if s != [] && s[|s| - 1] == '/' then WithoutSlashes(s[..|s| - 1]) else s
  }

  /** Spellings of one host agree: case, scheme, final slashes and outer spaces do not count. */
  function Normalized(instance: Option<string>): string {
    var given := if instance.Some? then instance.value else "";
    WithoutSlashes(WithoutScheme(Lower(TrimRight(TrimLeft(given)))))
  }

  // --- The checkpoint file ----------------------------------------------------

  /** The validity rule: same scope, same work and, when the run names one, the same instance. */
  predicate Accepts(file: CheckpointFile, job: Job) {
    && file.Present?
    && file.checkpoint.scope == job.scope
    && file.checkpoint.fingerprint == Some(job.fingerprint)
    && (job.instance.Some? ==> Normalized(file.checkpoint.instance) == Normalized(job.instance))
  }

  function KeyOf(job: Job): Key {
    Key(job.scope, job.fingerprint, Normalized(job.instance))
  }

  // --- Judging a table --------------------------------------------------------

  /** Which columns of which tables may be kept back as secret. */
  type SecretRule = (string, string) -> bool

  const META_FILE_NAME := ".meta"

  function RecordsOf(missing: Missing, table: string): seq<RecordWork> {
    if missing == [] then []
    else if missing[0].table == table then missing[0].records
    else RecordsOf(missing[1..], table)
  }

  /** Fields asked for, of records that came back, which did not come back. */
  function Unfetched(secret: SecretRule, table: string, requested: seq<RecordWork>, fetched: Fetched): set<string> {
    set r, f | r in requested && f in r.files
      && r.sysId in fetched && f.name !in fetched[r.sysId]
      && f.name != META_FILE_NAME && !secret(table, f.name)
      :: f.name
  }

  /** The table came back, and no field of it is missing. */
  predicate Complete(secret: SecretRule, table: string, requested: seq<RecordWork>, fetched: Fetched) {
    && (requested == [] || fetched != map[])
    && Unfetched(secret, table, requested, fetched) == {}
  }

  // --- What a table's rows bring ----------------------------------------------

  const META_FILE := File(META_FILE_NAME, "json")

  /** The columns of a file list with their types; a later entry for a column wins. */
  function TypesOf(files: seq<File>): map<string, string> {
    if files == [] then map[]
    else
      var last := files[|files| - 1];
      var before := TypesOf(files[..|files| - 1]);
      if last.name == META_FILE_NAME then before else before[last.name := last.fileType]
  }

  /** Every row is read with the columns that any requested record asks for. */
  function Columns(requested: seq<RecordWork>): map<string, string> {
    if requested == [] then map[]
    else Columns(requested[..|requested| - 1]) + TypesOf(requested[|requested| - 1].files)
  }

  predicate AsksMeta(record: RecordWork) {
    exists f :: f in record.files && f.name == META_FILE_NAME
  }

  /** The files a request can bring: each requested record's columns, and its sidecar if it asks for one. */
  function Answerable(requested: seq<RecordWork>): set<FileRef> {
    (set r, n | r in requested && n in Columns(requested) :: FileRef(r.sysId, File(n, Columns(requested)[n])))
    + (set r | r in requested && AsksMeta(r) :: FileRef(r.sysId, META_FILE))
  }

  /** Only requested records come back, with files that were asked for. */
  ghost predicate Answers(requested: seq<RecordWork>, fetched: Fetched) {
    forall id :: id in fetched ==>
      && (exists r :: r in requested && r.sysId == id)
      && (forall n :: n in fetched[id] ==>
            exists ref :: ref in Answerable(requested) && ref.sysId == id && ref.file.name == n)
  }

  /** The local files an answer brings, each with a value to write. */
  function BroughtBy(requested: seq<RecordWork>, fetched: Fetched): set<FileRef> {
    set ref | ref in Answerable(requested) && ref.sysId in fetched && ref.file.name in fetched[ref.sysId]
  }

  function Standing(disk: Disk, table: string): Deliveries {
    if table in disk.local then disk.local[table] else map[]
  }

  /** A write takes down every delivery that holds one of its files. */
  function Untouched(deliveries: Deliveries, touched: set<FileRef>): Deliveries {
    map k | k in deliveries && deliveries[k].written !! touched :: deliveries[k]
  }

  // --- Steps ------------------------------------------------------------------

  function TablesOf(missing: Missing): (r: seq<string>)
    ensures |r| == |missing| && forall i :: 0 <= i < |r| ==> r[i] == missing[i].table
  {
    seq(|missing|, i requires 0 <= i < |missing| => missing[i].table)
  }

  lemma {:induction false} RecordsOfFinds(missing: Missing, w: TableWork)
    requires Distinct(TablesOf(missing)) && w in missing
    ensures RecordsOf(missing, w.table) == w.records && w.table in TablesOf(missing)
  {
    var tables := TablesOf(missing);
    var k :| 0 <= k < |missing| && missing[k] == w;
    if k > 0 {
      assert tables[0] != tables[k];
      assert TablesOf(missing[1..]) == tables[1..] && missing[1..][k - 1] == w;
      RecordsOfFinds(missing[1..], w);
    }
    assert tables[k] == w.table;
  }

  function Begin(disk: Disk, job: Job): State {
    var completed := if Accepts(disk.file, job) then Dedup(disk.file.checkpoint.completedTables) else [];
    Continue(disk, Run(job, completed, Without(TablesOf(job.missing), Elements(completed)), [], Fetching))
  }

  /** The loop head: fetch the next table, end with failures, or clear the checkpoint. */
  function Continue(disk: Disk, run: Run): State {
    if run.pending != [] then State(disk, Some(run.(stage := Fetching)))
    else if run.failed != [] then State(disk, None)
    else State(disk, Some(run.(stage := Deleting)))
  }

  /** After the write: a table with a gap is failed, any other is completed and checkpointed. */
  function Judge(secret: SecretRule, disk: Disk, run: Run, fetched: Fetched, refused: set<FileRef>): State
    requires run.pending != []
  {
    var table := run.pending[0];
    var requested := RecordsOf(run.job.missing, table);
    if Complete(secret, table, requested, fetched) then
      var delivery := Delivery(BroughtBy(requested, fetched) - refused, BroughtBy(requested, fetched) * refused);
      var delivered := Standing(disk, table)[KeyOf(run.job) := delivery];
      State(disk.(local := disk.local[table := delivered]), Some(run.(stage := Checkpointing,
        completed := if table in run.completed then run.completed else run.completed + [table])))
    else Continue(disk, run.(pending := run.pending[1..], failed := run.failed + [table]))
  }

  function CheckpointOf(run: Run): Checkpoint {
    Checkpoint(run.job.scope, Some(run.job.fingerprint), run.job.instance, run.completed)
  }

  ghost predicate Enabled(s: State, e: Event) {
    match e
    case Begins(_) => s.run.None?
    case Killed => true
    case FetchReturns(fetched) =>
      && s.run.Some? && s.run.value.stage.Fetching? && s.run.value.pending != []
      && Answers(RecordsOf(s.run.value.job.missing, s.run.value.pending[0]), fetched)
    case WriteStarts(_) => s.run.Some? && s.run.value.stage.Starting? && s.run.value.pending != []
    case WriteReturns => s.run.Some? && s.run.value.stage.Writing? && s.run.value.pending != []
    case CheckpointWritten => s.run.Some? && s.run.value.stage.Checkpointing? && s.run.value.pending != []
    case CheckpointDeleted => s.run.Some? && s.run.value.stage.Deleting?
  }

  function Step(secret: SecretRule, s: State, e: Event): State
    requires Enabled(s, e)
  {
    match e
    case Begins(job) => Begin(s.disk, job)
    case FetchReturns(fetched) => s.(run := Some(s.run.value.(stage := Starting(fetched))))
    case WriteStarts(refused) =>
      var run := s.run.value;
      var table, fetched := run.pending[0], run.stage.fetched;
      var left := Untouched(Standing(s.disk, table), BroughtBy(RecordsOf(run.job.missing, table), fetched) - refused);
      State(s.disk.(local := s.disk.local[table := left]), Some(run.(stage := Writing(fetched, refused))))
    case WriteReturns => Judge(secret, s.disk, s.run.value, s.run.value.stage.fetched, s.run.value.stage.refused)
    case CheckpointWritten =>
      var run := s.run.value;
      Continue(s.disk.(file := Present(CheckpointOf(run))), run.(pending := run.pending[1..]))
    case CheckpointDeleted => State(s.disk.(file := Absent), None)
    case Killed => s.(run := None)
  }
}
