/** Building a manifest: what each table's enumeration leaves in it, and what the previous manifest adds. */
module CarryForward {
  import opened Collections
  import opened StringOrder

  datatype Record = Record(sysId: string, files: seq<string>)
  type Records = map<string, Record>

  /** A table of a manifest: its records by local name, and the columns of their sidecars. */
  datatype Table = Table(records: Records, metaFields: Option<seq<string>>, readOnly: Option<seq<string>>)
  type Tables = map<string, Table>

  /** One table's enumeration: an entry if there is one, and whether a part of it was refused. */
  datatype Enumeration = Enumerated(table: Option<Table>, skipped: bool) | Threw

  datatype Build = Built(tables: Tables) | Incomplete(failed: seq<string>)

  function LookUp(tables: Tables, t: string): Option<Table> {
    if t in tables then Some(tables[t]) else None
  }

  // --- One table --------------------------------------------------------------

  function SysIds(records: Records): set<string> {
    set name | name in records :: records[name].sysId
  }

  /** The prior records whose sys_id was not just enumerated. */
  function PriorRecordsNotIn(prior: Records, current: Records): Records {
    map name | name in prior && prior[name].sysId !in SysIds(current) :: prior[name]
  }

  /** What a refused table keeps: its prior entry, under the records just enumerated. */
  function Carried(current: Option<Table>, prior: Option<Table>): Option<Table> {
    if prior.None? || prior.value.records == map[] then current
    else if current.Some? && current.value.records != map[] then
      var found := current.value.records;
      Some(prior.value.(records := PriorRecordsNotIn(prior.value.records, found) + found))
    else prior
  }

  /** The entry of one enumerated table in the manifest. */
  function EntryOf(answer: Enumeration, prior: Option<Table>): Option<Table> {
    if answer.Threw? then None
    else if answer.skipped then Carried(answer.table, prior)
    else answer.table
  }

  predicate ListsAs(table: Option<Table>, name: string, sysId: string) {
    table.Some? && name in table.value.records && table.value.records[name].sysId == sysId
  }

  /** The table tracks the record, under some name. */
  ghost predicate Lists(table: Option<Table>, sysId: string) {
    exists name :: ListsAs(table, name, sysId)
  }

  ghost predicate ListsOnce(table: Option<Table>) {
    forall a, b, sysId :: ListsAs(table, a, sysId) && ListsAs(table, b, sysId) ==> a == b
  }

  predicate HasRecords(table: Option<Table>) {
    table.Some? && table.value.records != map[]
  }

  /**
    Name by name: a record just enumerated stands as enumerated; a prior record stands
    unless its sys_id was enumerated or its name was taken; nothing else is listed.
   */
  lemma {:induction false} CarriedByName(current: Option<Table>, prior: Option<Table>, name: string, sysId: string)
    ensures ListsAs(Carried(current, prior), name, sysId) <==>
      || ListsAs(current, name, sysId)
      || (&& ListsAs(prior, name, sysId)
          && (HasRecords(current) ==> name !in current.value.records && sysId !in SysIds(current.value.records)))
  {
    if HasRecords(prior) && HasRecords(current) {
      var found, kept := current.value.records, PriorRecordsNotIn(prior.value.records, current.value.records);
      assert name in kept + found <==> name in kept || name in found;
    }
  }

  /**
    What is kept is kept whole: each record as just enumerated, or else as it was known,
    and the sidecar columns of the prior entry even where the read found others.
   */
  lemma CarriedContents(current: Option<Table>, prior: Option<Table>)
    ensures !HasRecords(prior) ==> Carried(current, prior) == current
    ensures var carried := Carried(current, prior);
      HasRecords(prior) ==>
      && carried.Some?
      && (carried.value.metaFields, carried.value.readOnly) == (prior.value.metaFields, prior.value.readOnly)
      && (forall name :: HasRecords(current) && name in current.value.records ==>
            name in carried.value.records && carried.value.records[name] == current.value.records[name])
      && forall name :: name in carried.value.records && (HasRecords(current) ==> name !in current.value.records) ==>
           name in prior.value.records && carried.value.records[name] == prior.value.records[name]
  {}

  /**
    A record the previous manifest tracks is still tracked after a refused read if and
    only if the read listed it, or some name it had is not given to another record now.
   */
  lemma {:induction false} KnownRecordStaysExactlyWhen(current: Option<Table>, prior: Option<Table>, sysId: string)
    requires Lists(prior, sysId)
    ensures Lists(Carried(current, prior), sysId) <==>
      || Lists(current, sysId)
      || exists name :: ListsAs(prior, name, sysId) && (HasRecords(current) ==> name !in current.value.records)
  {
    var carried := Carried(current, prior);
    if Lists(current, sysId) {
      var name :| ListsAs(current, name, sysId);
      CarriedByName(current, prior, name, sysId);
      assert ListsAs(carried, name, sysId);
    } else {
      NotAmongSysIds(current, sysId);
      forall name ensures ListsAs(carried, name, sysId) <==>
          ListsAs(prior, name, sysId) && (HasRecords(current) ==> name !in current.value.records) {
        CarriedByName(current, prior, name, sysId);
        assert !ListsAs(current, name, sysId);
      }
    }
  }

  lemma NotAmongSysIds(table: Option<Table>, sysId: string)
    ensures Lists(table, sysId) <==> table.Some? && sysId in SysIds(table.value.records)
  {
    if table.Some? && sysId in SysIds(table.value.records) {
      var name :| name in table.value.records && table.value.records[name].sysId == sysId;
      assert ListsAs(table, name, sysId);
    }
  }

  /** The other way round: a partial read that gives a known record's name to another record loses the known one. */
  lemma ARecordIsForgotten()
    ensures exists current, prior, sysId ::
      && ListsOnce(current) && ListsOnce(prior) && Lists(prior, sysId)
      && !Lists(Carried(current, prior), sysId)
  {
    var prior := Some(Table(map["Notify" := Record("a", ["script"])], None, None));
    var current := Some(Table(map["Notify" := Record("b", ["script"])], None, None));
    assert ListsAs(prior, "Notify", "a");
    assert ListsOnce(current) && ListsOnce(prior);
    KnownRecordStaysExactlyWhen(current, prior, "a");
    assert !Lists(current, "a");
    assert forall name :: ListsAs(prior, name, "a") ==> name in current.value.records;
  }

  /** No record is tracked under two names, a renamed one included. */
  lemma {:induction false} CarriedListsOnce(current: Option<Table>, prior: Option<Table>)
    requires ListsOnce(current) && ListsOnce(prior)
    ensures ListsOnce(Carried(current, prior))
  {
    var carried := Carried(current, prior);
    forall a, b, sysId | ListsAs(carried, a, sysId) && ListsAs(carried, b, sysId) ensures a == b {
      CarriedByName(current, prior, a, sysId);
      CarriedByName(current, prior, b, sysId);
      NotAmongSysIds(current, sysId);
    }
  }

  /** Reading the same part again brings nothing new, and loses nothing more. */
  lemma {:induction false} CarryingTwice(current: Option<Table>, prior: Option<Table>)
    ensures Carried(current, Carried(current, prior)) == Carried(current, prior)
  {
    var once := Carried(current, prior);
    if HasRecords(current) {
      var found := current.value.records;
      var again := PriorRecordsNotIn(once.value.records, found) + found;
      var some :| some in found;
      assert some in once.value.records;
      assert forall name :: name in found ==> found[name].sysId in SysIds(found);
      assert again == once.value.records;
    }
  }

  // --- The whole build --------------------------------------------------------

  ghost predicate Complete(names: seq<string>, answers: string -> Enumeration) {
    forall t :: t in names ==> !answers(t).Threw?
  }

  /** The entry the manifest holds for a table: of those enumerated only. */
  function Wanted(names: seq<string>, answers: string -> Enumeration, prior: Tables, t: string): Option<Table> {
    if t in names then EntryOf(answers(t), LookUp(prior, t)) else None
  }

  /**
    Reads the tables in whatever order they finish. A failure of any of them is a failure
    of the build; otherwise each refused table falls back on what was known of it.
   */
  method EnumerateTables(finishing: seq<string>, answers: string -> Enumeration, prior: Tables) returns (build: Build)
    requires Distinct(finishing)
    ensures build.Built? <==> Complete(finishing, answers)
    ensures build.Built? ==> forall t :: LookUp(build.tables, t) == Wanted(finishing, answers, prior, t)
    ensures build.Incomplete? ==> Sorted(build.failed)
    ensures build.Incomplete? ==> forall t :: t in build.failed <==> t in finishing && answers(t).Threw?
  {
    hide Carried, Leq;
    var tables, failed, skipped := ReadTables(finishing, answers);
    if failed != [] {
      assert failed[0] in failed;
      SortKeepsElements(failed);
      return Incomplete(Sort(failed));
    }
    SortKeepsElements(skipped);
    SortKeepsDistinct(skipped);
    var carried := CarryAll(tables, Sort(skipped), prior);
    return Built(carried);
  }

  /** Every table's read: its entry put in place, a failure or a refusal noted. */
  method ReadTables(finishing: seq<string>, answers: string -> Enumeration)
    returns (tables: Tables, failed: seq<string>, skipped: seq<string>)
    requires Distinct(finishing)
    ensures forall t :: LookUp(tables, t) == Found(finishing, answers, t)
    ensures forall t :: t in failed <==> t in finishing && answers(t).Threw?
    ensures forall t :: t in skipped <==> t in finishing && answers(t).Enumerated? && answers(t).skipped
    ensures Distinct(skipped)
  {
    tables, failed, skipped := map[], [], [];
    for i := 0 to |finishing|
      invariant forall t :: t in failed <==> t in finishing[..i] && answers(t).Threw?
      invariant forall t :: t in skipped <==> t in finishing[..i] && answers(t).Enumerated? && answers(t).skipped
      invariant Distinct(skipped)
      invariant forall t :: LookUp(tables, t) == Found(finishing[..i], answers, t)
    {
      var t := finishing[i];
      ghost var was := tables;
      assert finishing[..i + 1] == finishing[..i] + [t];
      assert LookUp(was, t) == Found(finishing[..i], answers, t) == None;
      var answer := answers(t);
      if answer.Threw? {
        failed := failed + [t];
      } else {
        if answer.table.Some? { tables := tables[t := answer.table.value]; }
        if answer.skipped { skipped := skipped + [t]; }
      }
      forall other ensures LookUp(tables, other) == Found(finishing[..i + 1], answers, other) {
        assert other != t ==> LookUp(was, other) == Found(finishing[..i], answers, other);
      }
    }
    assert finishing[..|finishing|] == finishing;
  }

  /** The entry a table's own read put in place. */
  function Found(names: seq<string>, answers: string -> Enumeration, t: string): Option<Table> {
    if t in names && answers(t).Enumerated? then answers(t).table else None
  }

  /** The carry-forward: the refused tables, one after another. */
  method CarryAll(tables: Tables, refused: seq<string>, prior: Tables) returns (after: Tables)
    requires Distinct(refused)
    ensures forall t :: t in refused ==> LookUp(after, t) == Carried(LookUp(tables, t), LookUp(prior, t))
    ensures forall t :: t !in refused ==> LookUp(after, t) == LookUp(tables, t)
  {
    hide Carried, LookUp;
    after := tables;
    for i := 0 to |refused|
      invariant forall t :: t in refused[..i] ==> LookUp(after, t) == Carried(LookUp(tables, t), LookUp(prior, t))
      invariant forall t :: t !in refused[..i] ==> LookUp(after, t) == LookUp(tables, t)
    {
      var t := refused[i];
      assert refused[..i + 1] == refused[..i] + [t];
      assert t !in refused[..i];
      after := CarryOne(after, prior, t);
    }
    assert refused[..|refused|] == refused;
  }

  /** One turn of the carry-forward. */
  method CarryOne(tables: Tables, prior: Tables, t: string) returns (after: Tables)
    ensures LookUp(after, t) == Carried(LookUp(tables, t), LookUp(prior, t))
    ensures forall other :: other != t ==> LookUp(after, other) == LookUp(tables, other)
  {
    if t !in prior || prior[t].records == map[] { return tables; }
    if t in tables && tables[t].records != map[] {
      var found := tables[t].records;
      after := tables[t := prior[t].(records := PriorRecordsNotIn(prior[t].records, found) + found)];
    } else {
      after := tables[t := prior[t]];
    }
  }

  /** The order in which the reads finish does not show, and tables outside the build leave no trace. */
  lemma {:induction false} FinishingOrderIsInvisible(
      a: seq<string>, b: seq<string>, answers: string -> Enumeration, prior: Tables, x: Tables, y: Tables)
    requires forall t :: t in a <==> t in b
    requires forall t :: LookUp(x, t) == Wanted(a, answers, prior, t)
    requires forall t :: LookUp(y, t) == Wanted(b, answers, prior, t)
    ensures x == y
  {
    forall t ensures (t in x <==> t in y) && (t in x ==> x[t] == y[t]) {
      assert LookUp(x, t) == LookUp(y, t);
    }
  }

  // --- Builds one after another -----------------------------------------------

  /** One build: the tables it enumerated and what each answered. */
  datatype Attempt = Attempt(names: seq<string>, answers: string -> Enumeration)

  /** A manifest follows a build: the new one, or the old one after a failed build. */
  ghost predicate Follows(before: Tables, attempt: Attempt, after: Tables) {
    if Complete(attempt.names, attempt.answers) then
      forall t :: LookUp(after, t) == Wanted(attempt.names, attempt.answers, before, t)
    else after == before
  }

  ghost predicate Chain(manifests: seq<Tables>, attempts: seq<Attempt>) {
    && |manifests| == |attempts| + 1
    && forall i :: 0 <= i < |attempts| ==> Follows(manifests[i], attempts[i], manifests[i + 1])
  }

  ghost predicate Named(table: Option<Table>, nameOf: string -> string) {
    forall name, sysId :: ListsAs(table, name, sysId) ==> name == nameOf(sysId)
  }

  /** Local names do not change from one build to the next, and no two records of the table share one. */
  ghost predicate NamesHold(manifest: Tables, attempts: seq<Attempt>, t: string, nameOf: string -> string) {
    && (forall a, b :: nameOf(a) == nameOf(b) ==> a == b)
    && Named(LookUp(manifest, t), nameOf)
    && forall i :: 0 <= i < |attempts| ==> Named(Found(attempts[i].names, attempts[i].answers, t), nameOf)
  }

  ghost predicate Saw(attempt: Attempt, t: string, sysId: string) {
    Complete(attempt.names, attempt.answers) && Lists(Found(attempt.names, attempt.answers, t), sysId)
  }

  /** A finished build that left the table out, or read all of it without meeting the record. */
  ghost predicate SawItGone(attempt: Attempt, t: string, sysId: string) {
    && Complete(attempt.names, attempt.answers) && !Saw(attempt, t, sysId)
    && (t in attempt.names ==> !attempt.answers(t).skipped)
  }

  /** The last build that learned anything about the record met it. */
  ghost predicate Remembered(atStart: bool, attempts: seq<Attempt>, t: string, sysId: string) {
    if attempts == [] then atStart
    else
      var last := attempts[|attempts| - 1];
      Saw(last, t, sysId)
      || (!SawItGone(last, t, sysId) && Remembered(atStart, attempts[..|attempts| - 1], t, sysId))
  }

  /**
    Over any builds, failed, refused in part or complete: while local names hold, a
    record is tracked at the end if and only if the last build that learned anything
    about it met it.
   */
  lemma {:induction false} TrackedExactlyWhenRemembered(
      manifests: seq<Tables>, attempts: seq<Attempt>, t: string, sysId: string, nameOf: string -> string)
    requires Chain(manifests, attempts) && NamesHold(manifests[0], attempts, t, nameOf)
    ensures Named(LookUp(manifests[|attempts|], t), nameOf)
    ensures Lists(LookUp(manifests[|attempts|], t), sysId) <==>
      Remembered(Lists(LookUp(manifests[0], t), sysId), attempts, t, sysId)
  {
    if attempts != [] {
      var n := |attempts| - 1;
      TrackedExactlyWhenRemembered(manifests[..n + 1], attempts[..n], t, sysId, nameOf);
      assert Follows(manifests[n], attempts[n], manifests[n + 1]);
      AfterOneBuild(manifests[n], attempts[n], manifests[n + 1], t, sysId, nameOf);
    }
  }

  lemma {:induction false} AfterOneBuild(
      before: Tables, attempt: Attempt, after: Tables, t: string, sysId: string, nameOf: string -> string)
    requires Follows(before, attempt, after)
    requires forall a, b :: nameOf(a) == nameOf(b) ==> a == b
    requires Named(LookUp(before, t), nameOf) && Named(Found(attempt.names, attempt.answers, t), nameOf)
    ensures Named(LookUp(after, t), nameOf)
    ensures Lists(LookUp(after, t), sysId) <==>
      Saw(attempt, t, sysId) || (!SawItGone(attempt, t, sysId) && Lists(LookUp(before, t), sysId))
  {
    if Complete(attempt.names, attempt.answers) && t in attempt.names && attempt.answers(t).skipped {
      var current, prior := attempt.answers(t).table, LookUp(before, t);
      assert LookUp(after, t) == Carried(current, prior);
      CarriedIsNamed(current, prior, nameOf);
      if Lists(prior, sysId) {
        KnownStays(current, prior, sysId, nameOf);
      } else {
        forall name ensures ListsAs(Carried(current, prior), name, sysId) <==> ListsAs(current, name, sysId) {
          CarriedByName(current, prior, name, sysId);
        }
      }
    }
  }

  lemma {:induction false} CarriedIsNamed(current: Option<Table>, prior: Option<Table>, nameOf: string -> string)
    requires Named(current, nameOf) && Named(prior, nameOf)
    ensures Named(Carried(current, prior), nameOf)
  {
    forall name, sysId | ListsAs(Carried(current, prior), name, sysId) ensures name == nameOf(sysId) {
      CarriedByName(current, prior, name, sysId);
    }
  }

  /** Where names hold, no known record loses its name to another. */
  lemma {:induction false} KnownStays(
      current: Option<Table>, prior: Option<Table>, sysId: string, nameOf: string -> string)
    requires forall a, b :: nameOf(a) == nameOf(b) ==> a == b
    requires Named(current, nameOf) && Named(prior, nameOf) && Lists(prior, sysId)
    ensures Lists(Carried(current, prior), sysId)
  {
    KnownRecordStaysExactlyWhen(current, prior, sysId);
    var name :| ListsAs(prior, name, sysId);
    if HasRecords(current) && name in current.value.records {
      assert ListsAs(current, name, current.value.records[name].sysId);
    }
  }
  // --- The same without any promise about names -------------------------------

  ghost predicate SawAs(attempt: Attempt, t: string, name: string, sysId: string) {
    Complete(attempt.names, attempt.answers) && ListsAs(Found(attempt.names, attempt.answers, t), name, sysId)
  }

  /** A finished build that left the table out, read all of it, met the record, or met the name. */
  ghost predicate Learned(attempt: Attempt, t: string, name: string, sysId: string) {
    && Complete(attempt.names, attempt.answers)
    && (t in attempt.names && attempt.answers(t).skipped ==>
          var read := attempt.answers(t).table;
          HasRecords(read) && (name in read.value.records || sysId in SysIds(read.value.records)))
  }

  /** The last build that learned anything about the record or the name met the one under the other. */
  ghost predicate RememberedAs(atStart: bool, attempts: seq<Attempt>, t: string, name: string, sysId: string) {
    if attempts == [] then atStart
    else
      var n := |attempts| - 1;
      if Learned(attempts[n], t, name, sysId) then SawAs(attempts[n], t, name, sysId)
      else RememberedAs(atStart, attempts[..n], t, name, sysId)
  }

  /**
    Over any builds whatever, with names that change hands between them: a record is
    tracked under a name at the end if and only if the last build that learned
    anything about either met that record under that name.
   */
  lemma {:induction false} TrackedUnderANameExactlyWhen(
      manifests: seq<Tables>, attempts: seq<Attempt>, t: string, name: string, sysId: string)
    requires Chain(manifests, attempts)
    ensures ListsAs(LookUp(manifests[|attempts|], t), name, sysId) <==>
      RememberedAs(ListsAs(LookUp(manifests[0], t), name, sysId), attempts, t, name, sysId)
  {
    if attempts != [] {
      var n := |attempts| - 1;
      TrackedUnderANameExactlyWhen(manifests[..n + 1], attempts[..n], t, name, sysId);
      assert Follows(manifests[n], attempts[n], manifests[n + 1]);
      NameAfterOneBuild(manifests[n], attempts[n], manifests[n + 1], t, name, sysId);
    }
  }

  lemma {:induction false} NameAfterOneBuild(
      before: Tables, attempt: Attempt, after: Tables, t: string, name: string, sysId: string)
    requires Follows(before, attempt, after)
    ensures ListsAs(LookUp(after, t), name, sysId) <==>
      if Learned(attempt, t, name, sysId) then SawAs(attempt, t, name, sysId)
        else ListsAs(LookUp(before, t), name, sysId)
  {
    if Complete(attempt.names, attempt.answers) && t in attempt.names && attempt.answers(t).skipped {
      CarriedByName(attempt.answers(t).table, LookUp(before, t), name, sysId);
    }
  }
}
