/**
  What the resumable download guarantees over any sequence of runs, each of them
  killed anywhere and restarted for another scope, manifest or instance.
 */
module DownloadTheorems {
  import opened Collections
  import opened DownloadResume
  import opened JsText

  // --- One host, however it is spelled ----------------------------------------

  const SCHEMES := ["", "https://", "http://"]

  /** A host without outer white space, capitals, a scheme or a slash at its end. */
  predicate IsPlainHost(host: string) {
    && IsTrimmed(host) && !HasCapital(host) && !("https:" <= host) && !("http:" <= host)
    && (host == [] || host[|host| - 1] != '/')
  }

  /**
    A host written with any white space around it, in any letters, with or without a
    scheme and with any slashes behind it is compared as that host; and hosts written
    plainly are only compared equal to themselves.
   */
  lemma {:induction false} SpellingsOfOneHost(
      before: string, scheme: string, spelled: string, slashes: string, after: string, host: string)
    requires Blank(before) && Blank(after) && IsPlainHost(host) && host != []
    requires (exists s :: s in SCHEMES && SameLetters(scheme, s)) && SameLetters(spelled, host)
    requires forall i :: 0 <= i < |slashes| ==> slashes[i] == '/'
    ensures Normalized(Some(before + (scheme + spelled + slashes) + after)) == host
    ensures Normalized(Some(host)) == host && Normalized(None) == ""
  {
    hide TrimLeft, TrimRight, Lower, WithoutScheme, WithoutSlashes, SameLetters, HasCapital, IsTrimmed, Blank;
    NoInstanceIsNoHost();
    var s :| s in SCHEMES && SameLetters(scheme, s);
    var text := scheme + spelled + slashes;
    SpelledIsTrimmed(scheme, s, spelled, host, slashes);
    TrimSpells(before, text, after);
    SpelledLower(scheme, s, spelled, host, slashes);
    SchemeAndSlashesGo(s, host, slashes);
    PlainStays(host);
  }

  lemma NoInstanceIsNoHost()
    ensures Normalized(None) == ""
  {}

  lemma {:induction false} SpelledLower(scheme: string, s: string, spelled: string, host: string, slashes: string)
    requires s in SCHEMES && SameLetters(scheme, s) && SameLetters(spelled, host) && !HasCapital(host)
    requires forall i :: 0 <= i < |slashes| ==> slashes[i] == '/'
    ensures Lower(scheme + spelled + slashes) == s + (host + slashes)
  {
    SchemesAreLower();
    LowerSpells(scheme + spelled + slashes, s + (host + slashes));
  }

  lemma {:induction false} SchemeAndSlashesGo(s: string, host: string, slashes: string)
    requires s in SCHEMES && IsPlainHost(host) && host != []
    requires forall i :: 0 <= i < |slashes| ==> slashes[i] == '/'
    ensures WithoutSlashes(WithoutScheme(s + (host + slashes))) == host
  {
    hide WithoutSlashes;
    SlashesGo(host, slashes);
    NoSchemeAhead(host, slashes);
    SchemeGoes(s, host + slashes);
  }

  lemma {:induction false} NoSchemeAhead(host: string, slashes: string)
    requires IsPlainHost(host) && host != [] && forall i :: 0 <= i < |slashes| ==> slashes[i] == '/'
    ensures !("https://" <= host + slashes) && !("http://" <= host + slashes)
  {
    WordStopsAtSlash(host, slashes, "https:");
    WordStopsAtSlash(host, slashes, "http:");
    assert "https:" <= "https://" && "http:" <= "http://";
  }

  lemma {:induction false} WordStopsAtSlash(host: string, slashes: string, word: string)
    requires forall i :: 0 <= i < |slashes| ==> slashes[i] == '/'
    requires forall i :: 0 <= i < |word| ==> word[i] != '/'
    ensures word <= host + slashes ==> word <= host
  {
    var all := host + slashes;
    if word <= all {
      assert forall k :: 0 <= k < |word| ==> all[k] == word[k] && all[k] != '/';
      assert |host| < |all| ==> all[|host|] == '/';
      assert word == all[..|word|] == host[..|word|];
    }
  }

  lemma SchemesAreLower()
    ensures forall s :: s in SCHEMES ==> !HasCapital(s)
    ensures forall s :: s in SCHEMES && s != "" ==> s[0] == 'h'
  {}

  lemma {:induction false} SpelledIsTrimmed(scheme: string, s: string, spelled: string, host: string, slashes: string)
    requires s in SCHEMES && SameLetters(scheme, s) && SameLetters(spelled, host) && IsPlainHost(host) && host != []
    requires forall i :: 0 <= i < |slashes| ==> slashes[i] == '/'
    ensures IsTrimmed(scheme + spelled + slashes)
  {
    SchemesAreLower();
    assert !IsSpace(spelled[0]) && !IsSpace(spelled[|spelled| - 1]);
    assert scheme != "" ==> !IsSpace(scheme[0]);
  }

  lemma {:induction false} SlashesGo(host: string, slashes: string)
    requires host == [] || host[|host| - 1] != '/'
    requires forall i :: 0 <= i < |slashes| ==> slashes[i] == '/'
    ensures WithoutSlashes(host + slashes) == host
  {
    if slashes == [] {
      assert host + slashes == host;
    } else {
      var n := |slashes| - 1;
      assert (host + slashes)[..|host| + n] == host + slashes[..n];
      SlashesGo(host, slashes[..n]);
    }
  }

  lemma {:induction false} SchemeGoes(s: string, rest: string)
    requires s in SCHEMES && rest != [] && !("https://" <= rest) && !("http://" <= rest)
    ensures WithoutScheme(s + rest) == rest
  {
    assert s != "" ==> (s + rest)[|s|..] == rest;
    assert s == "http://" ==> (s + rest)[4] == ':';
    assert s == "" ==> s + rest == rest;
  }

  lemma {:induction false} PlainStays(host: string)
    requires IsPlainHost(host)
    ensures Normalized(Some(host)) == host
  {
    hide TrimLeft, TrimRight, Lower, HasCapital, IsTrimmed;
    TrimSpells("", host, "");
    assert "" + host + "" == host;
    LowerSpells(host, host);
    SlashesGo(host, "");
    assert host + "" == host;
    assert "https:" <= "https://" && "http:" <= "http://";
  }

  // --- Runs and their history -------------------------------------------------

  ghost predicate Legal(secret: SecretRule, s: State, events: seq<Event>)
    decreases |events|
  {
    events == [] || (Enabled(s, events[0]) && Legal(secret, Step(secret, s, events[0]), events[1..]))
  }

  ghost function After(secret: SecretRule, s: State, events: seq<Event>): State
    requires Legal(secret, s, events)
    decreases |events|
  {
    if events == [] then s else After(secret, Step(secret, s, events[0]), events[1..])
  }

  /** The answer that a run's write of a table was made from. */
  datatype Receipt = Receipt(job: Job, table: string, fetched: Fetched)

  /** Every table ever written, whatever was made of it afterwards. */
  type Ledger = seq<Receipt>

  ghost function Noted(secret: SecretRule, s: State, e: Event, ledger: Ledger): Ledger
    requires Enabled(s, e)
  {
    if e.WriteReturns? then
      var run := s.run.value;
      ledger + [Receipt(run.job, run.pending[0], run.stage.fetched)]
    else ledger
  }

  ghost function History(secret: SecretRule, s: State, events: seq<Event>, ledger: Ledger): Ledger
    requires Legal(secret, s, events)
    decreases |events|
  {
    if events == [] then ledger
    else History(secret, Step(secret, s, events[0]), events[1..], Noted(secret, s, events[0], ledger))
  }

  /**
    An answer leaves no gap: something came back if records were asked for, and each
    record that came back has every file asked for, sidecars and secret columns aside.
   */
  ghost predicate Gapless(secret: SecretRule, w: TableWork, fetched: Fetched) {
    && (w.records != [] ==> fetched != map[])
    && (forall r, f ::
          && r in w.records && f in r.files && r.sysId in fetched
          && f.name != ".meta" && !secret(w.table, f.name) ==>
          f.name in fetched[r.sysId])
  }

  /** The run judges a table complete exactly when its answer leaves no gap. */
  lemma {:induction false} CompleteExactlyWhenGapless(
      secret: SecretRule, missing: Missing, w: TableWork, fetched: Fetched)
    requires w in missing && Distinct(TablesOf(missing))
    ensures Complete(secret, w.table, RecordsOf(missing, w.table), fetched) <==> Gapless(secret, w, fetched)
  {
    RecordsOfFinds(missing, w);
    hide RecordsOf;
    var unfetched := Unfetched(secret, w.table, w.records, fetched);
    if !Gapless(secret, w, fetched) && (w.records != [] ==> fetched != map[]) {
      var r, f :| r in w.records && f in r.files && r.sysId in fetched && f.name != META_FILE_NAME
        && !secret(w.table, f.name) && f.name !in fetched[r.sysId];
      assert f.name in unfetched;
    }
  }

  /** Table names are the keys of an object, so each occurs once. */
  ghost predicate Tidy(e: Event) {
    e.Begins? ==> Distinct(TablesOf(e.job.missing))
  }

  ghost predicate NamesItsInstance(e: Event) {
    e.Begins? ==> e.job.instance.Some?
  }

  // --- The invariant ----------------------------------------------------------

  function CheckpointKey(c: Checkpoint): Key
    requires c.fingerprint.Some?
  {
    Key(c.scope, c.fingerprint.value, Normalized(c.instance))
  }

  /** Some run of this work wrote the table from an answer without a gap. */
  ghost predicate Backed(secret: SecretRule, ledger: Ledger, key: Key, t: string) {
    exists i :: 0 <= i < |ledger| && Backs(secret, ledger[i], key, t)
  }

  ghost predicate Backs(secret: SecretRule, receipt: Receipt, key: Key, t: string) {
    && KeyOf(receipt.job) == key && receipt.table == t
    && (exists w :: w in receipt.job.missing && w.table == t)
    && forall w :: w in receipt.job.missing && w.table == t ==> Gapless(secret, w, receipt.fetched)
  }

  /** Every table the checkpoint lists was delivered for exactly the checkpoint's work. */
  ghost predicate Justified(secret: SecretRule, file: CheckpointFile, ledger: Ledger) {
    file.Present? && file.checkpoint.fingerprint.Some? ==>
      forall t :: t in file.checkpoint.completedTables ==> Backed(secret, ledger, CheckpointKey(file.checkpoint), t)
  }

  /** The tables the loop is done with: the current one is still being judged until it is checkpointed. */
  function Adopted(run: Run): set<string> {
    if run.stage.Checkpointing? && run.pending != [] then Elements(run.completed) - {run.pending[0]}
    else Elements(run.completed)
  }

  /** The shape of a run between two effects. */
  ghost predicate Orderly(run: Run) {
    && Distinct(run.pending) && Distinct(TablesOf(run.job.missing))
    && Elements(run.pending) <= Elements(TablesOf(run.job.missing))
    && Elements(TablesOf(run.job.missing)) <= Elements(run.completed) + Elements(run.pending) + Elements(run.failed)
    && (forall t :: t in run.pending ==> t !in Adopted(run))
    && (run.stage.Deleting? <==> run.pending == [])
    && (run.stage.Checkpointing? ==> run.pending[0] in run.completed)
    && (run.stage.Deleting? ==> run.failed == [])
  }

  ghost predicate RunJustified(secret: SecretRule, run: Run, ledger: Ledger) {
    forall t :: t in run.completed ==> Backed(secret, ledger, KeyOf(run.job), t)
  }

  ghost predicate Inv(secret: SecretRule, s: State, ledger: Ledger) {
    && Justified(secret, s.disk.file, ledger)
    && (s.run.Some? ==>
        Orderly(s.run.value) && s.run.value.job.instance.Some? && RunJustified(secret, s.run.value, ledger))
  }

  // --- Crash-safe resume ------------------------------------------------------

  lemma WithoutKeepsDistinct(xs: seq<string>, out: set<string>)
    requires Distinct(xs)
    ensures Distinct(Without(xs, out))
  {
    if xs != [] {
      WithoutKeepsDistinct(xs[..|xs| - 1], out);
    }
  }

  lemma ContinueIsOrderly(disk: Disk, run: Run)
    requires Distinct(run.pending) && Distinct(TablesOf(run.job.missing))
    requires forall t :: t in run.pending ==> t !in run.completed
    requires Elements(run.pending) <= Elements(TablesOf(run.job.missing))
    requires Elements(TablesOf(run.job.missing)) <= Elements(run.completed) + Elements(run.pending)
      + Elements(run.failed)
    ensures Continue(disk, run).run.Some? ==> Orderly(Continue(disk, run).run.value)
    ensures Continue(disk, run).disk == disk
  {
  }

  lemma BeginIsOrderly(disk: Disk, job: Job)
    requires Distinct(TablesOf(job.missing))
    ensures Begin(disk, job).run.Some? && Orderly(Begin(disk, job).run.value)
    ensures Begin(disk, job).disk == disk
  {
    var completed := if Accepts(disk.file, job) then Dedup(disk.file.checkpoint.completedTables) else [];
    WithoutKeepsDistinct(TablesOf(job.missing), Elements(completed));
    ContinueIsOrderly(disk, Run(job, completed, Without(TablesOf(job.missing), Elements(completed)), [], Fetching));
  }

  /** The tables behind the current one are still untouched. */
  lemma TailIsApart(run: Run)
    requires Orderly(run) && run.pending != []
    ensures Distinct(run.pending[1..])
    ensures forall t :: t in run.pending[1..] ==> t in run.pending && t != run.pending[0] && t !in run.completed
    ensures Elements(run.pending) == {run.pending[0]} + Elements(run.pending[1..])
  {
    assert run.pending == [run.pending[0]] + run.pending[1..];
    forall t | t in run.pending[1..]
      ensures t in run.pending && t != run.pending[0] && t !in run.completed
    {
      var k :| 0 <= k < |run.pending| - 1 && run.pending[1..][k] == t;
      assert run.pending[k + 1] == t;
    }
  }

  lemma StepIsOrderly(secret: SecretRule, s: State, e: Event)
    requires Enabled(s, e) && Tidy(e)
    requires s.run.Some? ==> Orderly(s.run.value)
    ensures Step(secret, s, e).run.Some? ==> Orderly(Step(secret, s, e).run.value)
  {
    match e
    case Begins(job) => BeginIsOrderly(s.disk, job);
    case WriteReturns =>
      var run := s.run.value;
      var table := run.pending[0];
      TailIsApart(run);
      if !Complete(secret, table, RecordsOf(run.job.missing, table), run.stage.fetched) {
        ContinueIsOrderly(Step(secret, s, e).disk, run.(pending := run.pending[1..], failed := run.failed + [table]));
      }
    case CheckpointWritten =>
      var run := s.run.value;
      TailIsApart(run);
      ContinueIsOrderly(Step(secret, s, e).disk, run.(pending := run.pending[1..]));
    case _ =>
  }

  lemma StepKeepsInv(secret: SecretRule, s: State, e: Event, ledger: Ledger)
    requires Enabled(s, e) && Tidy(e) && NamesItsInstance(e)
    requires Inv(secret, s, ledger)
    ensures Inv(secret, Step(secret, s, e), Noted(secret, s, e, ledger))
  {
    hide Gapless, Complete, RecordsOf, Normalized, BroughtBy, TypesOf;
    StepIsOrderly(secret, s, e);
    var noted := Noted(secret, s, e, ledger);
    forall key, t | Backed(secret, ledger, key, t) ensures Backed(secret, noted, key, t) {
      var i :| 0 <= i < |ledger| && Backs(secret, ledger[i], key, t);
      assert noted[i] == ledger[i];
    }
    if e.WriteReturns? {
      WrittenIsBacked(secret, s, ledger);
    }
  }

  /** A table judged complete has just been written from an answer without a gap. */
  lemma {:induction false} WrittenIsBacked(secret: SecretRule, s: State, ledger: Ledger)
    requires Enabled(s, WriteReturns) && Orderly(s.run.value)
    ensures var run := s.run.value;
      Complete(secret, run.pending[0], RecordsOf(run.job.missing, run.pending[0]), run.stage.fetched) ==>
        Backed(secret, Noted(secret, s, WriteReturns, ledger), KeyOf(run.job), run.pending[0])
  {
    hide Gapless, Complete, RecordsOf, KeyOf;
    var run, noted := s.run.value, Noted(secret, s, WriteReturns, ledger);
    forall w | w in run.job.missing && w.table == run.pending[0]
      ensures Complete(secret, w.table, RecordsOf(run.job.missing, w.table), run.stage.fetched)
        <==> Gapless(secret, w, run.stage.fetched)
    {
      CompleteExactlyWhenGapless(secret, run.job.missing, w, run.stage.fetched);
    }
    if Complete(secret, run.pending[0], RecordsOf(run.job.missing, run.pending[0]), run.stage.fetched) {
      assert run.pending[0] in Elements(run.pending);
      var k :| 0 <= k < |run.job.missing| && TablesOf(run.job.missing)[k] == run.pending[0];
      assert run.job.missing[k] in run.job.missing;
      assert Backs(secret, noted[|ledger|], KeyOf(run.job), run.pending[0]);
    }
  }

  /**
    In every run of events, each table the checkpoint lists was fetched without a
    field gap and written by a run of the same scope, fingerprint and instance.
   */
  lemma {:induction false} CheckpointsOnlyDeliveredWork(
      secret: SecretRule, s: State, events: seq<Event>, ledger: Ledger)
    requires Legal(secret, s, events)
    requires forall e :: e in events ==> Tidy(e) && NamesItsInstance(e)
    requires Inv(secret, s, ledger)
    ensures Inv(secret, After(secret, s, events), History(secret, s, events, ledger))
    decreases |events|
  {
    hide Inv, Step, Noted, Enabled;
    if events != [] {
      StepKeepsInv(secret, s, events[0], ledger);
      CheckpointsOnlyDeliveredWork(secret, Step(secret, s, events[0]), events[1..],
        Noted(secret, s, events[0], ledger));
    }
  }

  /**
    Crash-safe resume: in a workspace without a checkpoint, let any runs follow, each
    naming its instance, killed anywhere and started again for other scopes,
    manifests or instances. For every table a checkpoint then lists, some run of the very
    scope, fingerprint and instance the checkpoint names had it among its work and wrote
    it from an answer that was not empty if records were asked for, and in which each
    record that came back had every file asked for, sidecars and secret columns aside.
   */
  lemma {:induction false} CrashSafeResume(
      secret: SecretRule, file: CheckpointFile, local: map<string, Deliveries>, events: seq<Event>, t: string)
    requires !file.Present?
    requires Legal(secret, State(Disk(file, local), None), events)
    requires forall e :: e in events ==> Tidy(e) && NamesItsInstance(e)
    ensures var start := State(Disk(file, local), None);
      var found := After(secret, start, events).disk.file;
      found.Present? && found.checkpoint.fingerprint.Some? && t in found.checkpoint.completedTables ==>
        exists receipt :: receipt in History(secret, start, events, [])
          && receipt.table == t && (exists w :: w in receipt.job.missing && w.table == t)
          && receipt.job.scope == found.checkpoint.scope
          && Some(receipt.job.fingerprint) == found.checkpoint.fingerprint
          && Normalized(receipt.job.instance) == Normalized(found.checkpoint.instance)
          && forall w :: w in receipt.job.missing && w.table == t ==>
               && (w.records != [] ==> receipt.fetched != map[])
               && (forall r, f ::
                     && r in w.records && f in r.files && r.sysId in receipt.fetched
                     && f.name != ".meta" && !secret(t, f.name) ==>
                     f.name in receipt.fetched[r.sysId])
  {
    CheckpointsOnlyDeliveredWork(secret, State(Disk(file, local), None), events, []);
    var found := After(secret, State(Disk(file, local), None), events).disk.file;
    if found.Present? && found.checkpoint.fingerprint.Some? && t in found.checkpoint.completedTables {
      BackedMeans(secret, History(secret, State(Disk(file, local), None), events, []),
        CheckpointKey(found.checkpoint), t);
    }
  }

  lemma BackedMeans(secret: SecretRule, ledger: Ledger, key: Key, t: string)
    requires Backed(secret, ledger, key, t)
    ensures exists receipt ::
      && receipt in ledger && receipt.table == t && (exists w :: w in receipt.job.missing && w.table == t)
      && receipt.job.scope == key.scope && receipt.job.fingerprint == key.fingerprint
      && Normalized(receipt.job.instance) == key.instance
      && forall w :: w in receipt.job.missing && w.table == t ==> Gapless(secret, w, receipt.fetched)
  {
    hide Gapless, Normalized;
    var i :| 0 <= i < |ledger| && Backs(secret, ledger[i], key, t);
    assert ledger[i] in ledger;
  }

  /**
    A run that clears its checkpoint has every table it was asked for written, by itself
    or by a run of the same work before it, from an answer without a gap.
   */
  lemma {:induction false} FinishedRunDeliveredAll(secret: SecretRule, s: State, ledger: Ledger, t: string)
    requires Inv(secret, s, ledger) && Enabled(s, CheckpointDeleted)
    requires exists w :: w in s.run.value.job.missing && w.table == t
    ensures exists receipt ::
      && receipt in ledger && receipt.table == t && (exists w :: w in receipt.job.missing && w.table == t)
      && receipt.job.scope == s.run.value.job.scope && receipt.job.fingerprint == s.run.value.job.fingerprint
      && Normalized(receipt.job.instance) == Normalized(s.run.value.job.instance)
      && forall w :: w in receipt.job.missing && w.table == t ==>
           && (w.records != [] ==> receipt.fetched != map[])
           && (forall r, f ::
                 && r in w.records && f in r.files && r.sysId in receipt.fetched
                 && f.name != ".meta" && !secret(t, f.name) ==>
                 f.name in receipt.fetched[r.sysId])
    ensures Step(secret, s, CheckpointDeleted) == State(Disk(Absent, s.disk.local), None)
  {
    hide Normalized;
    var missing := s.run.value.job.missing;
    var w :| w in missing && w.table == t;
    var k :| 0 <= k < |missing| && missing[k] == w;
    assert TablesOf(missing)[k] == t;
    assert t in Elements(TablesOf(missing));
    BackedMeans(secret, ledger, KeyOf(s.run.value.job), t);
  }

  // --- What a restart redoes --------------------------------------------------

  /** What the same job would adopt if it were started again from the disk as it is. */
  function Resumed(disk: Disk, job: Job): set<string> {
    if Accepts(disk.file, job) then Elements(disk.file.checkpoint.completedTables) else {}
  }

  /**
    Nothing finished is lost to a crash: restarted, the same job adopts exactly the
    tables this run was done with, so at most the table in hand is fetched again.
   */
  lemma {:induction false} RestartRedoesOneTable(secret: SecretRule, disk: Disk, job: Job, events: seq<Event>)
    requires Distinct(TablesOf(job.missing))
    requires Legal(secret, Begin(disk, job), events)
    requires forall e :: e in events ==> !e.Begins?
    requires After(secret, Begin(disk, job), events).run.Some?
    ensures var s := After(secret, Begin(disk, job), events);
      s.run.value.job == job && Resumed(s.disk, job) == Adopted(s.run.value)
  {
    BeginIsOrderly(disk, job);
    assert Begin(disk, job).run.value.job == job;
    assert Resumed(disk, job) == Adopted(Begin(disk, job).run.value);
    RestartFrom(secret, Begin(disk, job), job, events);
  }

  lemma {:induction false} RestartFrom(secret: SecretRule, s: State, job: Job, events: seq<Event>)
    requires Legal(secret, s, events)
    requires forall e :: e in events ==> !e.Begins?
    requires s.run.Some? ==>
      Orderly(s.run.value) && s.run.value.job == job && Resumed(s.disk, job) == Adopted(s.run.value)
    requires After(secret, s, events).run.Some?
    ensures var s1 := After(secret, s, events);
      s1.run.value.job == job && Resumed(s1.disk, job) == Adopted(s1.run.value)
    decreases |events|
  {
    if events != [] {
      var e := events[0];
      if s.run.Some? {
        StepIsOrderly(secret, s, e);
        ResumedStep(secret, s, e);
      }
      RestartFrom(secret, Step(secret, s, e), job, events[1..]);
    }
  }

  lemma ResumedStep(secret: SecretRule, s: State, e: Event)
    requires Enabled(s, e) && !e.Begins?
    requires s.run.Some? && Orderly(s.run.value) && Resumed(s.disk, s.run.value.job) == Adopted(s.run.value)
    ensures var s1 := Step(secret, s, e);
      s1.run.Some? ==> s1.run.value.job == s.run.value.job && Resumed(s1.disk, s.run.value.job) == Adopted(s1.run.value)
  {
    var run := s.run.value;
    if e.WriteReturns? {
      assert run.pending[0] in run.pending && run.pending[0] !in run.completed;
      assert Elements(run.completed + [run.pending[0]]) - {run.pending[0]} == Elements(run.completed);
    } else if e.CheckpointWritten? {
      assert Accepts(Present(CheckpointOf(run)), run.job);
    }
  }
}
