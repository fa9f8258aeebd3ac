# SyncroNow AI core: verified models

Dafny models of the parts of `packages/core` that carry state, walk graphs or
transform text, with proofs of what they keep. The instance, the disk and the
clock are parameters; everything else follows the TypeScript branch by branch.
`dafny verify dfyconfig.toml` checks the project.

## How the models are built

State that the program updates between awaits is a machine: a `State`, the
`Event`s that can land, and one `Step`. The theorems are about every step and
every run of the machine. Beside it stands the code in its own form, a class or
a method with the same fields and loops, whose contract says that it performs
exactly that step. Text is text: JSON is parsed and printed character by
character, documents are compared by their bytes, and paths are strings.

| area | modules |
|---|---|
| push queue of dev mode | WatcherSpec, WatcherLedger, WatcherTheorems, DevWatcher |
| generated table types | SuperClassGraph, NativeTypes, NativeColumns, InterfaceNames, NativeRender, SchemaFetch |
| resumable download | DownloadResume, DownloadTheorems, DownloadContent, Downloader, Fingerprint |
| bounded worker pool | WorkerPool |
| missing-file scan | MissingScan, MissingMeaning |
| composite documents | CompositeDocument, CompositeReading, CompositeCodec, CompositeMerge, CompositeNumbers, CompositeStore |
| JSON values and fields | JsonText, JsonGrammar, JsonLayout, JsonRoundTrip, JsObjects, SettledObjects, JsonField, JsonSecrets |
| JSON with comments | JsonExtensions, JsonExtensionsTheorems, JsonExtensionsReading, JsonExtensionsScanner |
| local file layout | PathNames, LayoutCodec, LayoutTheorems |
| CI/CD waiting and verdicts | Polling, AtfVerdict |
| choices of a scope | PagedRead, ScopeChoices |
| manifest builds after a refused read | CarryForward |
| listing the files of a tree | TreeWalk |
| shared helpers | Collections, StringOrder, Decimal, Joining, JsText |

## Where the code does less than its comments say

- Interface names. The comment at `packages/core/src/fluentNativeTypes.ts:378`
  says a valid table name is used verbatim. For the tables `a-b` and `a_b` the
  first takes `a_b` and the second becomes `a_b_2`. `VerbatimExactlyWhenFree` gives
  the exact condition.
- Checkpoints and the files behind them. A checkpoint tells truly what was once
  delivered, but a run against another instance that does not accept it still
  overwrites the files behind it, and if that run is killed before its own first
  checkpoint the old one is believed again. `TornBehindTheCheckpoint` is such a
  run; `WritingSparesTheCheckpoint` and `FilesStandExactlyWhenSpared` say
  exactly when it cannot happen, `SuccessIsTrueExactlyWhen` what a reported
  success is worth.
- A download that names no instance takes over any instance's checkpoint
  (`packages/core/src/downloadCheckpoint.ts:78-80`). `AdoptsOnlyItsOwnWork`
  says exactly when that is harmless.
- Composite documents. Entries outside a batch are said to be always kept
  (`packages/core/src/dataModelComposite.ts:442`), but rewriting their document
  passes their numbers through doubles: 9007199254740993 comes back as its even
  neighbour, and one past the range as null. `ANumberIsLost` gives a merge for
  each such number, `CompositeNumbers.OtherEntriesStand` the exact condition.
- A queued change whose path is stray or untracked is reported as ignored
  (`packages/core/src/Watcher.ts:140-162`), and yet queued again when its batch
  then cannot be grouped or resolved, or its push throws. `IgnoredComesBack` and
  `SkippedComesBack` are such runs, `IgnoredReturnsExactlyWhen` and
  `SkippedReturnsExactlyWhen` the exact conditions before and during the push.
- A download reports success over files its writer refused: a JSON column that
  holds a credential, or a file whose field is on disk under another extension
  (`packages/core/src/FileUtils.ts:243-308`). `SuccessWithoutAFile` is such a run.
- Paging the Table API until a short page reads everything only if no page before
  the last comes back short: `CompleteExactlyWhenInFull`, and
  `ShortPageLosesTheRest` for a loss.
- A refused read is said to keep every record it would have dropped
  (`packages/core/src/manifestBuilder.ts:1971-1975`). A known record whose name
  the read gave to another record is still lost: `ARecordIsForgotten`, and
  `KnownRecordStaysExactlyWhen` for the exact condition.

## Model

| member | source | states |
|---|---|---|
| `WatcherTheorems.NoLostChange` | packages/core/src/Watcher.ts:103-266 | After any run of file events, awaits, throws and timers from the start, every change ever accepted is queued and not deleted, flying in a batch of its own session, or settled (pushed, failed finally, skipped, deleted, session ended); the queue holds nothing else, and queued work always has a drain, a debounce or a retry timer behind it |
| `WatcherTheorems.StepKeepsInv` | packages/core/src/Watcher.ts:89-370 | One step of any kind keeps: queue and batch mirror what is owed, session and delete isolation, no stall, the armed retry timers being exactly the one the variable holds, bounded delays, well-formed batches |
| `WatcherTheorems.RunKeepsInv` | packages/core/src/Watcher.ts:89-370 | The same over every legal run from any state that satisfies the invariant |
| `WatcherTheorems.EntriesSurvive` | packages/core/src/Watcher.ts:103-266 | No change is forgotten over a run, and one that is settled keeps its outcome |
| `WatcherTheorems.FailedPathsMembers` | packages/core/src/Watcher.ts:185-204 | The requeued paths are exactly those whose own record answered with a failure that may be retried |
| `WatcherTheorems.FailedPathsAreTheRetries` | packages/core/src/Watcher.ts:169-204 | The same set, stated by the verdicts of the records |
| `WatcherTheorems.AnswersPartition` | packages/core/src/Watcher.ts:163-204 | Every context of a batch is answered, and no path with two verdicts |
| `WatcherTheorems.ThrowsExactlyWhen` | packages/core/src/Watcher.ts:140-163 | A batch cannot be pushed if and only if one of its paths cannot be resolved, or two of them claim one field of one record |
| `WatcherTheorems.ContextsExactlyTracked` | packages/core/src/Watcher.ts:140-162 | What is pushed of a batch is exactly its tracked paths, each with the record and field it resolved to |
| `WatcherTheorems.BuildablesExactly` | packages/core/src/pushPipeline.ts:67-137 | Each record of the batch is pushed once, in the order its files first name them |
| `WatcherTheorems.BatchIsTheQueue` | packages/core/src/Watcher.ts:114-118 | A batch is the whole queue, each path once, in the order they first came |
| `WatcherTheorems.PutBackGoesFirst` | packages/core/src/Watcher.ts:207-249 | Paths put back go ahead of what was queued since, without the deleted ones, each once |
| `WatcherTheorems.DelayMonotone` | packages/core/src/Watcher.ts:93 | The retry delay lies between 500 and 30000 ms and does not shrink as failures repeat |
| `WatcherTheorems.BackoffNeverShrinks` | packages/core/src/Watcher.ts:89-101 | Over any run without a reset, a retry armed later waits at least as long as one armed earlier, within the bounds |
| `WatcherTheorems.ResetMeansStoppedOrDrained` | packages/core/src/Watcher.ts:234-241 | The backoff restarts only on a stop or when a drain has emptied the queue |
| `WatcherTheorems.PushStep` | packages/core/src/Watcher.ts:182-232 | A push answer settles or requeues exactly the changes of its batch |
| `WatcherTheorems.CaughtStep` | packages/core/src/Watcher.ts:242-265 | A throw puts the batch back without the deleted files, and only within its own session |
| `WatcherTheorems.ReloadStep` | packages/core/src/Watcher.ts:132-180 | A stop during the manifest reload drops the old batch and nothing of the new session |
| `WatcherTheorems.UnlinkedStep` | packages/core/src/Watcher.ts:325-331 | Deleting a file removes it from the queue and settles what it owed |
| `WatcherTheorems.TimerKept` | packages/core/src/Watcher.ts:89-101 | Whatever retry is armed is the one the variable holds: arming, clearing and firing keep them together |
| `WatcherTheorems.AtMostOneRetry` | packages/core/src/Watcher.ts:89-101 | In every reachable state at most one retry timer is armed |
| `WatcherTheorems.QuietDrainEmptiesExactlyWhen` | packages/core/src/Watcher.ts:114-241 | From an idle, non-empty queue the pending timer starts a drain that ends with an empty queue if and only if no result asks for a retry |
| `WatcherTheorems.QuietDrainSettlesExactlyWhen` | packages/core/src/Watcher.ts:103-241 | If nothing else happens, one drain settles everything owed, final failures included, if and only if no result asks for a retry |
| `WatcherTheorems.IgnoredReturnsExactlyWhen` | packages/core/src/Watcher.ts:140-163 | A flying change that resolves to no context is queued again after the reload if and only if the session is its own, the batch cannot be resolved or grouped, and its file is not deleted |
| `WatcherTheorems.IgnoredComesBack` | packages/core/src/Watcher.ts:140-163 | A run in which a stray or untracked file is back in the queue without any push, because two other files claim one field |
| `WatcherTheorems.SkippedReturnsExactlyWhen` | packages/core/src/Watcher.ts:182-249 | While its batch is being pushed, a flying change without a context is queued again after the next event if and only if that is a throw in its own session and its file is not deleted |
| `WatcherTheorems.SkippedComesBack` | packages/core/src/Watcher.ts:242-249 | A run in which a stray or untracked file, skipped from its batch, is back in the queue after the push throws |
| `DevWatcher.GroupAppFiles` | packages/core/src/pushPipeline.ts:67-137 | One record per (table, sys_id) in first-seen order, each of its fields with the one file that claims it; refused exactly when two files claim one field of one record |
| `DevWatcher.ResolveBatch` | packages/core/src/Watcher.ts:140-162 | The contexts of the tracked paths in batch order; throws exactly when a path cannot be resolved |
| `DevWatcher.PrepareBatch` | packages/core/src/Watcher.ts:140-163 | The contexts of a batch and their records; none exactly when a path cannot be resolved or two files claim one field |
| `DevWatcher.CollectFailures` | packages/core/src/Watcher.ts:183-204 | The failed paths as the specification lists them |
| `DevWatcher.IndexPaths` | packages/core/src/Watcher.ts:168-180 | For each record of the batch, its queued paths in batch order |
| `DevWatcher.Watcher.constructor` | packages/core/src/Watcher.ts:89-108 | The initial state |
| `DevWatcher.Watcher.FileChanged` | packages/core/src/Watcher.ts:294-298 | Exactly the change step of the machine |
| `DevWatcher.Watcher.FileAdded` | packages/core/src/Watcher.ts:300-323 | Exactly the add step: a stray or untracked file is not queued |
| `DevWatcher.Watcher.FileUnlinked` | packages/core/src/Watcher.ts:325-335 | Exactly the delete step |
| `DevWatcher.Watcher.StopWatching` | packages/core/src/Watcher.ts:348-364 | Exactly the stop step: queue, deletions, timer and backoff cleared, session advanced |
| `DevWatcher.Watcher.DebounceElapsed` | packages/core/src/Watcher.ts:268-270 | Exactly the debounced start of a drain |
| `DevWatcher.Watcher.RetryElapsed` | packages/core/src/Watcher.ts:95-98 | Exactly the retry timer firing |
| `DevWatcher.Watcher.ArmRetry` | packages/core/src/Watcher.ts:89-101 | At most one retry timer, with the capped exponential delay |
| `DevWatcher.Watcher.DrainQueue` | packages/core/src/Watcher.ts:103-112 | A second drain never starts beside a running one |
| `DevWatcher.Watcher.NextBatch` | packages/core/src/Watcher.ts:114-118 | The loop head: the whole queue deduplicated as the next batch, or the end of a full drain with the backoff reset |
| `DevWatcher.Watcher.ReloadReturned` | packages/core/src/Watcher.ts:132-182 | The segment from the reload to the push: exactly the machine step |
| `DevWatcher.Watcher.PushReturned` | packages/core/src/Watcher.ts:182-232 | The segment after the push: exactly the machine step |
| `DevWatcher.Watcher.Threw` | packages/core/src/Watcher.ts:242-265 | The catch and finally: exactly the machine step |
| `SuperClassGraph.EveryCycleHasOneCut` | packages/core/src/fluentNativeTypes.ts:462-473 | Every table on a super_class cycle reaches exactly one cut, the member that sorts first, whichever table the walk began from |
| `SuperClassGraph.CutsLeaveNoCycle` | packages/core/src/fluentNativeTypes.ts:474-477 | After the cuts the parent relation is acyclic |
| `SuperClassGraph.CutOnlyRemoves` | packages/core/src/fluentNativeTypes.ts:474-477 | A climb after the cuts is a climb before them |
| `SuperClassGraph.LoopIsCutAtLeast` | packages/core/src/fluentNativeTypes.ts:463-472 | The least member of a walked loop is the cut of that cycle |
| `SuperClassGraph.WalkOutMeansNoCycle` | packages/core/src/fluentNativeTypes.ts:466-469 | A chain that leaves the schema started on no cycle |
| `SuperClassGraph.AboveShrinks` | packages/core/src/fluentNativeTypes.ts:484-513 | The measure that makes resolve and fieldOf end: fewer tables above the parent than above the child |
| `NativeTypes.CycleCuts` | packages/core/src/fluentNativeTypes.ts:462-473 | The loop over all tables cuts exactly the least member of each cycle |
| `NativeTypes.WalkUp` | packages/core/src/fluentNativeTypes.ts:464-469 | The chain of parents until it leaves the schema or repeats |
| `NativeColumns.RefusesExactlyWhen` | packages/core/src/fluentNativeTypes.ts:405-425 | A column's type refuses a stored value if and only if the column is a dropdown with a list that lacks it, the empty value aside under --None--; any other column keeps its base type |
| `NativeColumns.LiteralsExactlyWhen` | packages/core/src/fluentNativeTypes.ts:409-419 | The literals of a dropdown are ascending numbers if and only if the base type is number and every value spells a safe integer canonically; otherwise the values as texts, in order |
| `NativeColumns.UnionAdmitsExactlyTheChoices` | packages/core/src/fluentNativeTypes.ts:407-419 | A literal union admits exactly the listed values, plus the empty one where the list allows none, with numbers only where each value is canonically spelled |
| `NativeColumns.FieldOf` | packages/core/src/fluentNativeTypes.ts:484-488 | The nearest definition of a column going up the parents, none only if no table above has it |
| `NativeColumns.ResolvedColumn` | packages/core/src/fluentNativeTypes.ts:501-513 | The signature of every resolved column: own definition, else choice override, else the parent's |
| `NativeColumns.InheritedColumn` | packages/core/src/fluentNativeTypes.ts:489-513 | What an inherited column resolves to, with the choices nearest above in force |
| `NativeColumns.MembersDistinct` | packages/core/src/fluentNativeTypes.ts:490-527 | The declared members of an interface name each column once |
| `NativeColumns.OverridesExactlyWhen` | packages/core/src/fluentNativeTypes.ts:490-499 | A table overrides an inherited column if and only if it does not declare it and lists choices that close it |
| `NativeColumns.OverridesMembers` | packages/core/src/fluentNativeTypes.ts:490-499 | Exactly the inherited columns with a usable choice list of the table's own are redeclared |
| `InterfaceNames.FreeName` | packages/core/src/fluentNativeTypes.ts:385-387 | The base name, or the first free numbered one |
| `InterfaceNames.AssignNames` | packages/core/src/fluentNativeTypes.ts:379-391 | Pairwise distinct, usable names, given out in sorted table order |
| `InterfaceNames.BaseIsUsable` | packages/core/src/fluentNativeTypes.ts:383-384 | The sanitized base is a usable TypeScript name, and the table name itself exactly when that is usable |
| `InterfaceNames.UsableExactlyWhen` | packages/core/src/fluentNativeTypes.ts:367-383 | A name is usable if and only if it is an ASCII identifier and no word of the language, no built-in type and none of the header's names |
| `InterfaceNames.NameOf` | packages/core/src/fluentNativeTypes.ts:382-388 | A table's name depends on its own and on the names taken by the tables that sort before it |
| `InterfaceNames.VerbatimExactlyWhenFree` | packages/core/src/fluentNativeTypes.ts:378-391 | A table name is used verbatim if and only if it is usable and no table sorting before it took it |
| `InterfaceNames.ValidNameCanBeTaken` | packages/core/src/fluentNativeTypes.ts:378-391 | The comment's promise fails for the tables a-b and a_b: a_b is valid and yet renamed |
| `NativeRender.EmittedTypesMeanResolved` | packages/core/src/fluentNativeTypes.ts:455-558 | The emitted file has exactly one reading under the rules of extends Omit, it gives every table its resolved columns, and no redeclared column clashes with an inherited one |
| `NativeRender.EmitAddsUp` | packages/core/src/fluentNativeTypes.ts:517-555 | For one interface: parent members minus the omit list plus the declared members equal the resolved columns |
| `NativeRender.OmittedExactlyWhen` | packages/core/src/fluentNativeTypes.ts:526-528 | A column is on the omit list if and only if the parent has it and it resolves to another signature here |
| `NativeRender.EveryReadingCompiles` | packages/core/src/fluentNativeTypes.ts:528-545 | Any reading of the file equals the resolver's columns, and a redeclared column not omitted has the inherited signature |
| `NativeRender.ResolveCached` | packages/core/src/fluentNativeTypes.ts:500-513 | The memoized resolver computes the same columns, whatever was cached |
| `NativeRender.CollectOverrides` | packages/core/src/fluentNativeTypes.ts:490-499 | The loop over a table's choices collects the specified overrides |
| `NativeRender.SetColumns` | packages/core/src/fluentNativeTypes.ts:506-510 | The loop that sets signatures computes the specified columns |
| `NativeRender.EmitTable` | packages/core/src/fluentNativeTypes.ts:517-545 | One emitted interface with its parent, omit list and members |
| `NativeRender.Render` | packages/core/src/fluentNativeTypes.ts:515-558 | One interface for each table, under its own name |
| `NativeRender.PlanIsSound` | packages/core/src/fluentNativeTypes.ts:459-477 | After the cuts resolution terminates, and only the cut tables lost their parent |
| `NativeRender.RenderNativeTypes` | packages/core/src/fluentNativeTypes.ts:455-558 | From the schema to the file: names distinct and usable, parents those of the schema minus the cuts, every interface emitted |
| `SchemaFetch.ReadAll` | packages/core/src/fluentNativeTypes.ts:116-142 | The full ordered row list for any server that caps pages arbitrarily, or the page limit reported, never a part |
| `SchemaFetch.ReadByNames` | packages/core/src/fluentNativeTypes.ts:144-158 | Exactly the rows of the asked names, chunk after chunk, each chunk in the order of the table |
| `SchemaFetch.RowsComeOnce` | packages/core/src/fluentNativeTypes.ts:144-158 | Names asked once bring each of their rows once |
| `SchemaFetch.UnknownParents` | packages/core/src/fluentNativeTypes.ts:252-255 | The parents not yet asked for, each once, sorted |
| `SchemaFetch.ReadableExactlyWhen` | packages/core/src/fluentNativeTypes.ts:160-162 | A name is asked for if and only if it is of letters, digits, underscores and dollar signs, and not empty |
| `SchemaFetch.FetchTables` | packages/core/src/fluentNativeTypes.ts:246-270 | The loop ends, and yields exactly the seed tables and every readable ancestor reachable by super_class |
| `SchemaFetch.EverythingClimbedWasFound` | packages/core/src/fluentNativeTypes.ts:250-270 | With no unknown parent left, the tables found are exactly those the seed climbs to |
| `DownloadTheorems.CrashSafeResume` | packages/core/src/downloadPipeline.ts:920-1023 | From a workspace without a checkpoint, after any runs, each naming its instance, killed anywhere and restarted for other work: for every table the checkpoint lists, a run of its scope, fingerprint and instance wrote it from an answer that was not empty if records were asked for, and in which each record that came back had every file asked for, sidecars and secret columns aside |
| `DownloadTheorems.CheckpointsOnlyDeliveredWork` | packages/core/src/downloadPipeline.ts:920-1023 | The invariant behind it, over every run of events from any justified state |
| `DownloadTheorems.StepKeepsInv` | packages/core/src/downloadPipeline.ts:944-1023 | One effect of a run, or a kill, keeps it |
| `DownloadTheorems.FinishedRunDeliveredAll` | packages/core/src/downloadPipeline.ts:1012-1023 | When a run clears its checkpoint, every table of its work was written by a run of the same work from an answer without a gap, said file by file |
| `DownloadTheorems.CompleteExactlyWhenGapless` | packages/core/src/downloadPipeline.ts:990-998 | A table is judged complete if and only if something came back for the records asked for, and each record that came back has every file asked for, sidecars and secret columns aside |
| `DownloadTheorems.SpellingsOfOneHost` | packages/core/src/downloadCheckpoint.ts:90-98 | A host in any letters, with white space around it, a scheme before it and slashes behind it is compared as that host, and plain hosts only as themselves |
| `DownloadTheorems.RestartRedoesOneTable` | packages/core/src/downloadPipeline.ts:945-955 | Restarted, the same job adopts exactly the tables the killed run was done with, so at most the table in hand is redone |
| `DownloadTheorems.StepIsOrderly` | packages/core/src/downloadPipeline.ts:947-1000 | No table is both done and pending, none is dropped, and the checkpoint is cleared only with nothing failed |
| `DownloadContent.AdoptsOnlyItsOwnWork` | packages/core/src/downloadCheckpoint.ts:73-84 | A run that accepts a checkpoint adopts only its own work if and only if it names an instance, or the checkpoint names none, or lists nothing |
| `DownloadContent.TornBehindTheCheckpoint` | packages/core/src/downloadPipeline.ts:944-1000 | Files can go stale behind a checkpoint, for any table with a file to fetch: a run against another instance is killed while it rewrites them, and the first run, resumed, skips the table and reports success though no delivery of it stands |
| `DownloadContent.WritingSparesTheCheckpoint` | packages/core/src/downloadPipeline.ts:971 | Starting a write keeps the checkpoint's files as it says if and only if no file it writes, the refused ones aside, belongs to a delivery the checkpoint lists |
| `DownloadContent.FilesStandExactlyWhenSpared` | packages/core/src/downloadPipeline.ts:944-1000 | For a run that names its instance, the files stand through every continuation if and only if the checkpoint is its own, or no listed delivery that its requests could touch can be reached before the checkpoint is replaced |
| `DownloadContent.FilesStandThroughout` | packages/core/src/downloadPipeline.ts:944-1023 | Over any runs, each killed anywhere: while every run spares the checkpoint it finds, the files stand at every moment as the checkpoint says, and every table of a run that reports success is on disk as that work left it |
| `DownloadContent.SuccessIsTrueExactlyWhen` | packages/core/src/downloadPipeline.ts:944-1023 | Where a run reports success, every file fetched for a table is on disk if and only if the writer refused none of them and the run did not adopt the table from a delivery that was incomplete or no longer stood |
| `DownloadContent.SuccessWithoutAFile` | packages/core/src/FileUtils.ts:243-341 | A file the writer withholds or declines is no gap: such a run clears its checkpoint and reports success without the file |
| `DownloadContent.EverythingIsComplete` | packages/core/src/manifestBuilder.ts:2293-2318 | A full answer brings every file the request can bring and leaves no gap |
| `Downloader.CollectUnfetchedFields` | packages/core/src/downloadPipeline.ts:870-906 | The fields asked for and not returned, of records that came back, without sidecars and secrets: sorted, each once |
| `Downloader.Workspace.DownloadTablesWithResume` | packages/core/src/downloadPipeline.ts:920-1023 | One run over the workspace is a legal run of the machine; it finishes exactly by clearing the checkpoint, and otherwise names exactly the tables whose answer lacks a field or everything, or was killed; no such table is ever listed for its work |
| `Downloader.Workspace.DownloadTable` | packages/core/src/downloadPipeline.ts:956-1003 | One turn of the loop: fetch, write, judge, checkpoint, in that order |
| `Downloader.Workspace.WriteTable` | packages/core/src/downloadPipeline.ts:971-998 | The write takes down the deliveries it touches; a table without a gap then counts as delivered, with the files written and those refused, any other as failed |
| `Fingerprint.TextIdentifiesTheWork` | packages/core/src/downloadPipeline.ts:844-861 | For names without its delimiters the digested text is equal if and only if the same files of the same records are asked for, in whatever order |
| `Fingerprint.RecordTextsIdentify` | packages/core/src/downloadPipeline.ts:848-857 | The same for the records of one table |
| `Fingerprint.AcceptedMeansSameWork` | packages/core/src/downloadCheckpoint.ts:70-76 | With a collision-free digest, an accepted checkpoint was written for the same work |
| `WorkerPool.WholeCall` | packages/core/src/downloadPipeline.ts:52-93 | Under any schedule: at most min(limit, n) in flight, items claimed 0, 1, 2, ... each once, and at the end each item's own answer unless one failed |
| `WorkerPool.RunsKeepInv` | packages/core/src/downloadPipeline.ts:52-93 | At every moment of every schedule at most min(limit, n) items are in flight |
| `WorkerPool.ClaimsArePrefix` | packages/core/src/downloadPipeline.ts:73-81 | The claimed items are consecutive, each claimed once |
| `WorkerPool.NothingClaimedAfterAnError` | packages/core/src/downloadPipeline.ts:74 | After the first failure nothing more is claimed |
| `WorkerPool.EndOfCall` | packages/core/src/downloadPipeline.ts:85-92 | When every runner left nothing is outstanding; the call succeeds if and only if every item does; a lone error is thrown unchanged, several together, at most one a runner |
| `WorkerPool.PoolAdvances` | packages/core/src/downloadPipeline.ts:72-85 | Until it has ended some step is possible, and each step uses up fuel |
| `WorkerPool.EveryScheduleIsShort` | packages/core/src/downloadPipeline.ts:72-85 | No schedule is longer than the fuel |
| `WorkerPool.Pool.constructor` | packages/core/src/downloadPipeline.ts:57-72 | An empty pool with min(limit, n) runners |
| `WorkerPool.Pool.Launch` | packages/core/src/downloadPipeline.ts:72-76 | Exactly the launch step |
| `WorkerPool.Pool.Settle` | packages/core/src/downloadPipeline.ts:77-82 | Exactly the settle step of one item |
| `WorkerPool.Pool.Finish` | packages/core/src/downloadPipeline.ts:85-92 | Each item's answer in order, or a lone error unchanged, or all of them |
| `MissingScan.FindMissingFiles` | packages/core/src/downloadPipeline.ts:667-674 | The fast scan lists a field if and only if it is wanted: fetchable, and not on disk or, for a composite sidecar, held by no document; nothing outside the manifest is listed |
| `MissingMeaning.ScanListsTheLacking` | packages/core/src/downloadPipeline.ts:667-714 | On the disk: a field is listed if and only if it is no column of another record and nothing stands for it, or, for the sidecar of a composite table, no document holds it |
| `MissingMeaning.OnDiskExactlyWhen` | packages/core/src/FileUtils.ts:104-160 | Something stands for a field if and only if the writer's own file is there, or a file of the same name, letter forms aside, under any extension, that no editor left behind |
| `MissingMeaning.WrittenIsFound` | packages/core/src/FileUtils.ts:347-369 | What a writer made for a field is found for it in both layouts, and so is the same column under another extension |
| `MissingMeaning.OthersDoNotStand` | packages/core/src/FileUtils.ts:104-131 | A field is lacking where every file of its directory was written for another, was left behind or has no extension |
| `LayoutTheorems.LeftoverExactlyWhen` | packages/core/src/FileUtils.ts:62-83 | A file counts as left behind if and only if it is hidden, or ends in one of the backup and temporary endings in any letters, or is folder metadata, and is no sidecar |
| `MissingScan.ListedExactlyWhenWanted` | packages/core/src/downloadPipeline.ts:667-714 | The list of a record after the scan, the reconciliation and the filter, field by field |
| `MissingScan.AbsentDirectory` | packages/core/src/downloadPipeline.ts:620-640 | Below an absent directory the plain probe finds nothing, so listing the record whole is the same |
| `MissingScan.NaiveHolds` | packages/core/src/downloadPipeline.ts:581-600 | The plain probe lists exactly the fields without a representation |
| `MissingScan.MissingLedger.ScanRecordFields` | packages/core/src/downloadPipeline.ts:581-600 | One record's unfound fields are appended in manifest order, other lists stay |
| `MissingScan.MissingLedger.ScanTableRecords` | packages/core/src/downloadPipeline.ts:602-639 | Each record's list is that of the plain probe, with absent folders taken whole |
| `MissingScan.MissingLedger.ScanTables` | packages/core/src/downloadPipeline.ts:641-660 | The same for every table, with absent directories taken whole |
| `MissingScan.MissingLedger.WholeTable` | packages/core/src/downloadPipeline.ts:569-572 | Every field of every record of a table |
| `MissingScan.MissingLedger.WholeRecord` | packages/core/src/downloadPipeline.ts:566-568 | Every field of a record |
| `MissingScan.MissingLedger.Field` | packages/core/src/downloadPipeline.ts:561-565 | One field appended to one record's list |
| `MissingScan.ReconcileRecord` | packages/core/src/downloadPipeline.ts:694-711 | A held sidecar is taken off, a missing one put on, other fields and records untouched, no empty entry left |
| `MissingScan.ReconcileCompositeMissing` | packages/core/src/downloadPipeline.ts:681-714 | Exactly the records of the composite tables are reconciled |
| `MissingScan.FilteredAt` | packages/core/src/dotWalkedFieldFiles.ts:64-96 | Dot-walked columns are dropped from each list, the ATF step script and sidecars kept |
| `MissingScan.KeptExactlyWhen` | packages/core/src/dotWalkedFieldFiles.ts:75-95 | The filter drops a record or a table if and only if it leaves it without a file; what was empty before stays |
| `CompositeDocument.ParseOfSerialize` | packages/core/src/dataModelComposite.ts:213-294 | Parsing a valid document's own text gives it back without empty sections (numbers past the range of a double become null) |
| `CompositeDocument.DocumentIsNormal` | packages/core/src/dataModelComposite.ts:282-294 | The serialized object is one the printers and the parser agree on |
| `CompositeReading.AcceptedExactlyWhen` | packages/core/src/dataModelComposite.ts:213-274 | A text is accepted if and only if, a byte-order mark aside, it is JSON for an object with the format, the table it is named after, sections of safely named records and no other key; and then it holds that object's records and columns, all of them and no more |
| `CompositeReading.WrittenExactly` | packages/core/src/dataModelComposite.ts:282-294 | A document is written as its format, its table and the parts of the three tables that have records, records and columns arranged, two-space form with a line break behind |
| `JsObjects.CanonicalAscends` | packages/core/src/dataModelComposite.ts:194-200 | Keys that spell no array index come in code-unit order |
| `StringOrder.LeqByCodeUnits` | packages/core/src/dataModelComposite.ts:196-198 | The order of names is that of their UTF-16 code units |
| `CompositeCodec.ParsedIsValid` | packages/core/src/dataModelComposite.ts:213-274 | A document that parses is named after its table and holds only composite sections and safe record names |
| `CompositeCodec.TextIsTheRecords` | packages/core/src/dataModelComposite.ts:276-294 | Two documents of a table have the same text if and only if they hold the same records |
| `CompositeCodec.SerializeIsStable` | packages/core/src/dataModelComposite.ts:276-294 | Serialize, parse, serialize gives the same bytes |
| `CompositeCodec.EntryTextIdentifies` | packages/core/src/dataModelComposite.ts:301-302 | Two entries have the same canonical text if and only if they have the same columns |
| `CompositeCodec.ParseCompositeDocument` | packages/core/src/dataModelComposite.ts:213-274 | The parser with its loops equals the specification, the first structural problem refusing the document |
| `CompositeCodec.ParseSection` | packages/core/src/dataModelComposite.ts:252-270 | One section, record by record |
| `CompositeCodec.SerializeCompositeDocument` | packages/core/src/dataModelComposite.ts:282-294 | The text depends on the records alone, not on the order they or their columns were put in |
| `CompositeCodec.SortSection` | packages/core/src/dataModelComposite.ts:287-290 | Records and columns in canonical order |
| `JsObjects.SortedCopy` | packages/core/src/dataModelComposite.ts:194-200 | A sorted copy depends on the contents alone |
| `JsObjects.ToMapOfCanonical` | packages/core/src/dataModelComposite.ts:194-200 | The canonical order loses nothing |
| `CompositeMerge.MergeKeepsOneHolder` | packages/core/src/dataModelComposite.ts:447-539 | In every state the merge passes through, each record is held by at most one document and every record held before is held by the same one |
| `CompositeMerge.HeldAfter` | packages/core/src/dataModelComposite.ts:478-528 | The records held afterwards: those held before, where they were, and the batch's records of the groups reached |
| `CompositeMerge.OtherEntriesKeepTheirText` | packages/core/src/dataModelComposite.ts:438-445 | An entry outside the batch, or one it may not replace, reads to the same canonical text |
| `CompositeNumbers.OtherEntriesStand` | packages/core/src/dataModelComposite.ts:438-445 | An entry outside the batch keeps its columns; what its document says of it, number by number, is kept if and only if the document is not rewritten or each of its numbers survives being a double |
| `CompositeNumbers.SameExactlyWhenSurvives` | packages/core/src/dataModelComposite.ts:194-200 | Read and written back, a value says the same if and only if each of its numbers survives being a double |
| `CompositeNumbers.DocumentReread` | packages/core/src/dataModelComposite.ts:213-274 | Reading a document is reading it literally and then rounding its numbers |
| `CompositeNumbers.ANumberIsLost` | packages/core/src/dataModelComposite.ts:442-443 | Any number that does not survive is lost by some merge that never names its record |
| `CompositeNumbers.LargeOddIsRounded` | packages/core/src/dataModelComposite.ts:442-443 | 9007199254740993 is such a number |
| `CompositeMerge.ForceDelivers` | packages/core/src/dataModelComposite.ts:521-528 | With force every record of the batch ends up with the downloaded entry's text |
| `CompositeMerge.AbsentEntriesAreAdded` | packages/core/src/dataModelComposite.ts:521-528 | An entry that was not held before is the batch's own, in the group it belongs to |
| `CompositeMerge.NothingLeftToDo` | packages/core/src/dataModelComposite.ts:508-529 | A document already merged is not rewritten by the same batch |
| `CompositeMerge.ResumedMerge` | packages/core/src/dataModelComposite.ts:495-538 | A merge killed after any number of documents and run again ends where the whole merge would, byte for byte; merging twice is merging once |
| `CompositeMerge.HeldGroup` | packages/core/src/dataModelComposite.ts:478-481 | A record already held stays in its document |
| `CompositeMerge.GroupForExactlyWhen` | packages/core/src/dataModelComposite.ts:309-317 | A new record goes to the table its name column states; failing that, to the one its own name begins with; and otherwise to none |
| `CompositeStore.EntryExactlyWhen` | packages/core/src/dataModelComposite.ts:464-475 | The text of a write is an entry if and only if, a byte-order mark aside, it is JSON for an object, and the entry then holds all of its columns and no more |
| `CompositeStore.BatchHasNoOrder` | packages/core/src/dataModelComposite.ts:447-451 | What is merged does not depend on the order of the batch |
| `CompositeStore.LoadCompositeIndex` | packages/core/src/dataModelComposite.ts:355-382 | The index of every record's document; refused exactly when a document does not parse or a record is held twice |
| `CompositeStore.AddDocument` | packages/core/src/dataModelComposite.ts:361-379 | One document's entries added, refused exactly on a record already indexed |
| `CompositeStore.PlanWrites` | packages/core/src/dataModelComposite.ts:455-494 | Every write placed, refused exactly when one has an unsafe name, no entry or no group |
| `CompositeStore.MergeInto` | packages/core/src/dataModelComposite.ts:506-529 | One document with its updates, in any order, and whether an entry changed |
| `CompositeStore.Store.MergeCompositeWrites` | packages/core/src/dataModelComposite.ts:447-539 | A refused batch writes nothing; otherwise the documents are exactly the merge of the batch, the documents named are exactly those rewritten, sorted, and every state in between is a part of the merge |
| `CompositeStore.Store.Plan` | packages/core/src/dataModelComposite.ts:452-494 | Everything that can refuse a batch comes before the first write |
| `CompositeStore.Store.WritePlan` | packages/core/src/dataModelComposite.ts:495-538 | Document after document in name order, one at a time, every state in between being a part of the merge |
| `JsonGrammar.ParsesExactlyTheGrammar` | packages/core/src/jsonFieldFiles.ts:105-112 | Reading accepts exactly the texts of the grammar in section 2 of RFC 8259, stated by their parts, and gives the value they spell |
| `JsonGrammar.ObjectOfPairs` | packages/core/src/jsonFieldFiles.ts:105-112 | Of the pairs an object is written with, the last of each key is kept: index keys first and ascending, the others in the order they first came |
| `JsonLayout.PrintersShow` | packages/core/src/jsonFieldFiles.ts:20-26 | One printer gives a value on one line without white space between its parts, the other a line for each scalar and bracket, two spaces in for each level |
| `JsonRoundTrip.ParseOfPrint` | packages/core/src/jsonFieldFiles.ts:20-26 | Both printers are undone by the parser of RFC 8259 section 2 |
| `JsonRoundTrip.ValueIsNormal` | packages/core/src/jsonFieldFiles.ts:105-112 | Parsing yields canonical numbers and members in enumeration order, each key once, at any depth |
| `JsonField.RoundTrip` | packages/core/src/jsonFieldFiles.ts:20-50 | Pushing what download wrote returns the stored text, if and only if it is JSON or blank and was not stored in the two-space form; that form becomes its minified form with the same value; other text is refused |
| `JsonField.SecondRoundTrip` | packages/core/src/jsonFieldFiles.ts:20-50 | A second round trip changes nothing and rewrites the file by at most its final line break |
| `JsonField.OnDiskExactlyWhen` | packages/core/src/jsonFieldFiles.ts:20-26 | On disk stands the two-space form of any JSON stored on one line, and every other text as it is stored |
| `JsonField.SentExactlyWhen` | packages/core/src/jsonFieldFiles.ts:33-50 | A blank file is sent as it is, the two-space form with or without a final line break on one line, any other JSON as it is; anything else is refused |
| `JsonSecrets.CleanMeansNoCredential` | packages/core/src/jsonFieldFiles.ts:64-103 | A column is reported clean if and only if no chain of members, items and encoded strings reaches a non-empty string under a credential's key |
| `JsonSecrets.NestedIsInside` | packages/core/src/jsonFieldFiles.ts:95-103 | A string whose first character past white space opens an object or an array, and which parses, leads on into its contents; any other value into itself |
| `JsonSecrets.SecretExactlyWhen` | packages/core/src/jsonFieldFiles.ts:55-65 | A key is a credential's if and only if, in small letters with an underscore for each break between its words, it is one of the words or ends in one behind an underscore |
| `JsonSecrets.WalkFindsAll` | packages/core/src/jsonFieldFiles.ts:74-91 | The trails found are exactly those that lead to a credential |
| `JsonSecrets.ValueWeighsLess` | packages/core/src/jsonFieldFiles.ts:95-103 | A parsed value weighs no more than its text, so descending into encoded strings ends |
| `JsonSecrets.FindSecretJsonPaths` | packages/core/src/jsonFieldFiles.ts:70-91 | The paths pushed onto the list are the trails of the walk, in order |
| `JsonSecrets.WalkNode` | packages/core/src/jsonFieldFiles.ts:74-87 | One node's paths appended to what was found before |
| `JsText.BlankTrimsToNothing` | packages/core/src/jsonFieldFiles.ts:34-36 | Blank text is text that trims to nothing |
| `JsonExtensionsTheorems.StringsAreVerbatim` | packages/core/src/fluentCommand.ts:626-676 | Every string literal is copied verbatim, and nothing else becomes one |
| `JsonExtensionsTheorems.UnchangedExactlyWhenPlain` | packages/core/src/fluentCommand.ts:617-676 | Text passes unchanged if and only if it has no byte-order mark, no comment and no trailing comma outside strings |
| `JsonExtensionsTheorems.OutputIsPlain` | packages/core/src/fluentCommand.ts:626-676 | Output goes through unchanged if and only if it does not begin with a byte-order mark |
| `JsonExtensionsTheorems.FailsExactlyWhenUnterminated` | packages/core/src/fluentCommand.ts:641-645 | It throws if and only if a block comment opened outside strings and comments is never closed |
| `JsonExtensionsTheorems.DropsTheTrailingCommas` | packages/core/src/fluentCommand.ts:651-675 | Exactly the commas between an element and a closing bracket are dropped, judged on the text as it stands; commas like those of {,} stay |
| `JsonExtensionsTheorems.OutputTokens` | packages/core/src/fluentCommand.ts:626-676 | What is returned reads back as exactly the tokens kept |
| `JsonExtensionsReading.NextExactlyWhen` | packages/core/src/fluentCommand.ts:630-648 | Taken at once is a literal, from a quote of either kind to the first such quote or line break that no backslash escapes; a line comment; a block comment to its first end; or a character |
| `JsonExtensionsReading.LexExactlyWhen` | packages/core/src/fluentCommand.ts:630-648 | A text is read as the pieces it consists of, and in no other way |
| `JsonExtensionsReading.TrailingExactlyWhen` | packages/core/src/fluentCommand.ts:665-671 | A comma trails if and only if, white space aside, something that is no opening bracket and no comma stands before it and a closing bracket behind |
| `JsonExtensionsReading.LinesStay` | packages/core/src/fluentCommand.ts:629-649 | No line break is lost, and none added but the one put behind a comment that ends the text |
| `JsonExtensionsReading.CommentsAreBlanked` | packages/core/src/fluentCommand.ts:639-646 | A comment leaves only spaces and line breaks; any other piece stays as it is |
| `JsonExtensionsScanner.StripComments` | packages/core/src/fluentCommand.ts:629-649 | First pass: the positions i and j walk the text and produce the tokens' text, or the failure |
| `JsonExtensionsScanner.DropCommas` | packages/core/src/fluentCommand.ts:653-675 | Second pass: the output built up with its last significant character |
| `JsonExtensionsScanner.EndOfLiteral` | packages/core/src/fluentCommand.ts:634-638 | The end of a literal, with escapes, line breaks and the end of the text |
| `JsonExtensionsScanner.SkipsToBracket` | packages/core/src/fluentCommand.ts:668-671 | Whether only white space precedes a closing bracket |
| `JsonExtensionsScanner.StripJsonExtensions` | packages/core/src/fluentCommand.ts:626-676 | The scanner equals its specification on tokens |
| `LayoutTheorems.DecodesWhatWasWritten` | packages/core/src/FileUtils.ts:486-526 | Every path a writer produces decodes to its table, record and column (the ATF script on sys_atf_step, the sidecar by its file name), in both layouts |
| `LayoutTheorems.FindsWhatWasWritten` | packages/core/src/FileUtils.ts:532-568 | A written field the manifest tracks is found again, unless its file name is one editors leave behind |
| `LayoutTheorems.HiddenExactlyWhen` | packages/core/src/FileUtils.ts:75-83 | The file name begins with a dot exactly when the record's does (flat) or the field's does (folder) |
| `LayoutTheorems.FlatEncodedExactlyWhen` | packages/core/src/flatLayout.ts:72-77 | A path is read as flat if and only if its file's stem has text before and behind its last separator |
| `LayoutTheorems.PathsAreDistinct` | packages/core/src/FileUtils.ts:347-369 | Distinct fields, records or layouts never share a path |
| `LayoutTheorems.FlatUndoesFolder` | packages/core/src/flatLayout.ts:29-69 | Flat-to-folder undoes folder-to-flat if and only if the stem has no separator and the flat name keeps the extension, which it does whenever the file has one |
| `LayoutTheorems.SegmentsOfJoin` | packages/core/src/FileUtils.ts:42-46 | Joined segments split back into the same segments |
| `LayoutTheorems.ExtOfFile` | packages/core/src/FileUtils.ts:49-59 | The extension of a written file is its type, its stem the rest |
| `LayoutTheorems.ExtBehindPrefix` | packages/core/src/flatLayout.ts:37-39 | Text in front of a file name keeps its extension |
| `PathNames.SafeInAscii` | packages/core/src/genericUtils.ts:43-81 | In printable ASCII a name is one path segment if and only if it has 1 to 255 characters, not all dots, and no slash of either kind |
| `Polling.PollProgress` | packages/core/src/cicdCommand.ts:606-682 | At most ceil(timeout / poll) + 1 polls, no sleep past the deadline, ends at the first terminal status, settled or permanent failure, deadline, or third transient failure in a row, and at nothing else |
| `Polling.HistoryExactlyWhen` | packages/core/src/cicdCommand.ts:606-682 | A wait goes on after a round if and only if the round is in time, shows no terminal status, no settled or permanent failure and no third transient failure in a row; how it ends follows from its last round |
| `AtfVerdict.CountExactlyWhenStated` | packages/core/src/cicdCommand.ts:712-726 | A count is read if and only if the value is that number, or its digits with any white space around them |
| `AtfVerdict.StatusesRead` | packages/core/src/cicdCommand.ts:707-710 | A status is read as passing or failing if and only if the text spells one of those words, in any letters and with any white space around it |
| `AtfVerdict.AppActionsFollowTheTracker` | packages/core/src/cicdCommand.ts:925-997 | Exit 0 of install, publish and rollback if and only if the tracker succeeded and is not, on a resume, a test run |
| `AtfVerdict.SuccessMeansEvidence` | packages/core/src/cicdCommand.ts:717-757 | Exit 0 of a test action if and only if the tracker succeeded and its result states a pass; for a suite also zero failures, zero errors and at least one success |
| `AtfVerdict.FailureMeansEvidence` | packages/core/src/cicdCommand.ts:939-997 | Exit 2 of a test action if and only if the run did not succeed or the result clearly reports a failure or no tests |
| `AtfVerdict.FetchAtfOutcome` | packages/core/src/cicdCommand.ts:808-853 | At most three reads, again only after transient failures; none without a linked record |
| `AtfVerdict.RunAction` | packages/core/src/cicdCommand.ts:899-997 | The exit follows from how the wait ended and what the tries at the result record gave: never 0 after a wait that did not finish, and for a test action only with a record read that passed |
| `ScopeChoices.GetScopeChoiceRows` | packages/core/src/manifestBuilder.ts:1623-1694 | With no refusal, exactly the rows whose table, column or choice list the scope owns, under the operator's conditions, each once; after a refusal a counted part of them |
| `ScopeChoices.SelectedOnce` | packages/core/src/manifestBuilder.ts:1676-1687 | Each owned row is selected by exactly one of the chunked queries, any other by none |
| `ScopeChoices.ReturnedCount` | packages/core/src/manifestBuilder.ts:1689-1694 | How often a row comes back from the queries |
| `ScopeChoices.OwnedTables` | packages/core/src/manifestBuilder.ts:1652-1657 | The table names that may stand in a query |
| `ScopeChoices.OwnedColumns` | packages/core/src/manifestBuilder.ts:1658-1674 | The columns on tables the scope does not define |
| `ScopeChoices.RunQueries` | packages/core/src/manifestBuilder.ts:1689-1694 | The queries one after another, counting the refused |
| `PagedRead.ChunksPartition` | packages/core/src/manifestBuilder.ts:1538-1548 | Chunks lose, repeat and reorder nothing, and none is empty or too long |
| `PagedRead.ChunkArray` | packages/core/src/manifestBuilder.ts:1538-1548 | The loop equals the specification |
| `PagedRead.TableAPIGetAllRows` | packages/core/src/manifestBuilder.ts:164-189 | Paging until a short page collects the specified rows |
| `PagedRead.CompleteExactlyWhenInFull` | packages/core/src/manifestBuilder.ts:164-189 | For a server that may shorten any page, every row is read, once and in order, if and only if each page brings a full page or all that is left |
| `PagedRead.ShortPageLosesTheRest` | packages/core/src/manifestBuilder.ts:184-186 | Of three rows only one is read when the first page comes back short |
| `TreeWalk.ScanIsExact` | packages/core/src/FileUtils.ts:656-735 | A scan lists exactly the files at most twenty levels down, reached by listed names without passing a link (the configured root itself excepted), each once; nothing outside the source and build trees |
| `TreeWalk.ListedExactlyWhen` | packages/core/src/FileUtils.ts:718-733 | At any depth, a path is listed if and only if it leads through at most the levels left to a file |
| `TreeWalk.ListedOnce` | packages/core/src/FileUtils.ts:718-733 | No file is listed twice |
| `TreeWalk.GetPathsInPath` | packages/core/src/FileUtils.ts:706-735 | The work list, last in first out, returns the files of the tree in the order of the recursive walk |
| `TreeWalk.PushChildren` | packages/core/src/FileUtils.ts:730-732 | Pushing a listing leaves its files pending, the last name first |
| `TreeWalk.EncodedPathsToFilePaths` | packages/core/src/FileUtils.ts:749-755 | Several scans together list the distinct files of each, in first-seen order |
| `CarryForward.TrackedUnderANameExactlyWhen` | packages/core/src/manifestBuilder.ts:1916-1987 | Over any builds, names changing hands between them: a record is tracked under a name at the end if and only if the last build that learned anything about either met that record under that name |
| `CarryForward.TrackedExactlyWhenRemembered` | packages/core/src/manifestBuilder.ts:1916-1987 | Over any builds, failed, refused in part or complete: while local names hold, a record is tracked at the end if and only if the last build that learned anything about it met it |
| `CarryForward.KnownRecordStaysExactlyWhen` | packages/core/src/manifestBuilder.ts:1961-1979 | After a refused read a known record is still tracked if and only if the read listed it or some name it had is not given to another record |
| `CarryForward.ARecordIsForgotten` | packages/core/src/manifestBuilder.ts:1976 | A partial read that gives the name to another record loses the known one |
| `CarryForward.CarriedByName` | packages/core/src/manifestBuilder.ts:1969-1998 | Name by name, exactly which records a refused table keeps |
| `CarryForward.CarriedContents` | packages/core/src/manifestBuilder.ts:1969-1977 | Records are kept whole, the fresher ones winning, and the sidecar columns are those known before |
| `CarryForward.CarriedListsOnce` | packages/core/src/manifestBuilder.ts:1972-1976 | No record is tracked under two names, a renamed one included |
| `CarryForward.CarryingTwice` | packages/core/src/manifestBuilder.ts:1969-1977 | Carrying forward again from its own result changes nothing |
| `CarryForward.EnumerateTables` | packages/core/src/manifestBuilder.ts:1916-1987 | Fails exactly when a table failed, naming those; otherwise every table stands as enumerated or as carried, and no other table is in the manifest |
| `CarryForward.ReadTables` | packages/core/src/manifestBuilder.ts:1929-1946 | The pool of reads, in any finishing order |
| `CarryForward.CarryAll` | packages/core/src/manifestBuilder.ts:1960-1979 | The carry-forward changes the refused tables and no other |
| `CarryForward.FinishingOrderIsInvisible` | packages/core/src/manifestBuilder.ts:1929-1946 | The order in which the reads finish does not show in the manifest |

## Left out

- The contents of `pushPipeline` other than `groupAppFiles`: a push answers one result for each record, in order.
- Warnings, progress text, log lines, hints and the once-only warning sets of the watcher; error messages are reduced to their kind.
- The record key `<table>-<sys_id>` is a pair; a sys_id holds no hyphen, so the joined key says the same.
- TypeScript text of the generated file (comments, member order, quoting): an interface is its parent, omit list and members, and a signature is optionality and type.
- Fluent schema rows other than tables: reading columns and choices and merging duplicate rows.
- `JSON.parse` of numbers: a parameter gives the text a number literal prints as, or none past the range of a double; it is required to give numbers that print as themselves.
- Lone UTF-16 surrogates: characters are Unicode scalar values, so an escape for half a pair is taken as malformed.
- Lower case and spaces are those of ASCII letters and of JavaScript white space; NFC and case folding of file names is a parameter.
- The call stack limit of recursive JSON parsing.
- Which of several faults is reported when more than one document is unreadable or a record is held twice.
- A data-model path that is a directory, and any other failure of the file system between two writes of a merge; a merge stopped there is a partial merge.
- Batches that name a record twice, or a table without documents: the callers never send one.
- `path.join` normalization of `.` and `..` segments: paths are taken as already normalized.
- Several sidecar entries in one record's file list: a record lists at most one.
- The encoded queries as text: a query is the condition it states, and an operator query only adds conditions.
- Ownership reads for choices are given as answered or refused; their paging is that of `TableAPIGetAllRows`.
- SHA-1: the digest is a parameter, and only its collisions matter.
- How one table is enumerated (`enumerateTable`): a build sees its entry, a refusal or a failure; a manifest of another scope counts as none.
- Writing the build tree, and the paths packed into one string: a scan is given its entries as paths.
- `inspectCompositeLayout` and the layout checks beside the merge, which only report.
- Network, OAuth, prompts, command-line wiring and plugin loading.
- Where the local files of a download lie: a file is its table, sys_id, column and type, so a renamed record folder is the same file, no two files share a path, and a sidecar kept in a data-model document is a file like any other.
- Why a writer refuses a file (its content, other files beside it): each write is given the set it refuses.
- Changes to local files by anything but the runs themselves.
- Which of its promises an instance keeps: a request brings any part of what was asked for, of the records asked for.
- Numbers of a downloaded sidecar: an entry of a batch is what `JSON.parse` gives.
- DownloadContent.TornBehindTheCheckpoint: shows the family of failing runs for one table; the exact condition is in FilesStandExactlyWhenSpared.
- JsonExtensionsScanner.StripJsonExtensions: a failure is none, without the position the error names.
- Polling.PollProgress: the error texts and the resume hint are not part of the outcome.
