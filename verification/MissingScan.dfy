/**
  The missing-file scan: a walk that skips whole tables and records whose directory
  is absent, against the plain probe of every field.
 */
module MissingScan {
  import opened Collections
  import opened LayoutCodec

  // --- The tree and the probe -------------------------------------------------

  /** What exists below the source directory, by segments. */
  type Tree = set<seq<string>>

  ghost predicate Closed(tree: Tree) {
    forall p :: p in tree && |p| > 1 ==> p[..|p| - 1] in tree
  }

  /** A local file that stands for a field, whatever extension it carries. */
  predicate Represents(canon: string -> string, entry: string, name: string) {
    Extname(entry) != "" && !IsEditorArtifact(entry) && canon(Stem(entry)) == canon(name)
  }

  predicate IsIn(p: seq<string>, dir: seq<string>) {
    |p| == |dir| + 1 && p[..|dir|] == dir
  }

  /** Whether a field has a local representation in a directory. */
  predicate Probe(canon: string -> string, tree: Tree, dir: seq<string>, f: Field) {
    || dir + [FieldFileName(f)] in tree
    || exists p :: p in tree && IsIn(p, dir) && Represents(canon, p[|dir|], f.name)
  }

  // --- The manifest -----------------------------------------------------------

  datatype Rec = Rec(key: string, name: string, sysId: string, files: seq<Field>)

  datatype TableConfig = TableConfig(table: string, records: seq<Rec>)

  /** Table keys and the sys_ids of a table are unique. */
  ghost predicate UniqueIds(manifest: seq<TableConfig>) {
    && (forall i, j :: 0 <= i < j < |manifest| ==> manifest[i].table != manifest[j].table)
    && (forall t :: t in manifest ==> UniqueRecords(t.records))
  }

  ghost predicate UniqueRecords(records: seq<Rec>) {
    forall i, j :: 0 <= i < j < |records| ==> records[i].sysId != records[j].sysId
  }

  /** What a workspace is scanned with. */
  datatype Workspace = Workspace(canon: string -> string, tree: Tree, flat: bool)

  /** The directory a record's fields live in: its own folder, or the table's in the flat layout. */
  function DirOf(w: Workspace, table: string, r: Rec): seq<string> {
    if w.flat then [table] else [table, if r.name != "" then r.name else r.key]
  }

  function ProbeName(w: Workspace, r: Rec, f: Field): Field {
    if w.flat then f.(name := FlatStem(r.name, f.name)) else f
  }

  predicate OnDisk(w: Workspace, table: string, r: Rec, f: Field) {
    Probe(w.canon, w.tree, DirOf(w, table, r), ProbeName(w, r, f))
  }

  /** The fields of a record without a representation, probed one by one, in manifest order. */
  function Naive(w: Workspace, table: string, r: Rec, n: nat): seq<Field>
    requires n <= |r.files|
  {
    if n == 0 then []
    else Naive(w, table, r, n - 1) + (if OnDisk(w, table, r, r.files[n - 1]) then [] else [r.files[n - 1]])
  }

  function Unfound(w: Workspace, table: string, r: Rec): seq<Field> {
    Naive(w, table, r, |r.files|)
  }

  lemma {:induction false} NaiveHolds(w: Workspace, table: string, r: Rec, n: nat, f: Field)
    requires n <= |r.files|
    ensures f in Naive(w, table, r, n) <==> f in r.files[..n] && !OnDisk(w, table, r, f)
  {
    hide OnDisk;
    if n > 0 {
      NaiveHolds(w, table, r, n - 1, f);
      assert r.files[..n] == r.files[..n - 1] + [r.files[n - 1]];
    }
  }

  /** Below an absent directory nothing represents anything. */
  lemma {:induction false} AbsentDirectory(w: Workspace, table: string, r: Rec, n: nat)
    requires Closed(w.tree) && n <= |r.files|
    requires DirOf(w, table, r) !in w.tree || [table] !in w.tree
    ensures Naive(w, table, r, n) == r.files[..n]
  {
    hide Represents, FieldFileName;
    if n > 0 {
      AbsentDirectory(w, table, r, n - 1);
      assert r.files[..n] == r.files[..n - 1] + [r.files[n - 1]];
      AbsentProbe(w, table, r, r.files[n - 1]);
    }
  }

  lemma {:induction false} AbsentProbe(w: Workspace, table: string, r: Rec, f: Field)
    requires Closed(w.tree)
    requires DirOf(w, table, r) !in w.tree || [table] !in w.tree
    ensures !OnDisk(w, table, r, f)
  {
    hide Represents, FieldFileName;
    var dir := DirOf(w, table, r);
    DirectoryMissing(w, table, r);
    forall p | IsIn(p, dir) ensures p !in w.tree {
      assert p[..|p| - 1] == dir;
    }
    var exact := dir + [FieldFileName(ProbeName(w, r, f))];
    assert exact[..|exact| - 1] == dir;
  }

  lemma {:induction false} DirectoryMissing(w: Workspace, table: string, r: Rec)
    requires Closed(w.tree)
    requires DirOf(w, table, r) !in w.tree || [table] !in w.tree
    ensures DirOf(w, table, r) !in w.tree
  {
    var dir := DirOf(w, table, r);
    assert |dir| == 2 ==> dir[..1] == [table];
    assert |dir| == 1 ==> dir == [table];
  }

  // --- The ledger -------------------------------------------------------------

  /** Table to sys_id to the fields to fetch. */
  type Entries = map<string, map<string, seq<Field>>>

  function At(entries: Entries, table: string, sysId: string): seq<Field> {
    if table in entries && sysId in entries[table] then entries[table][sysId] else []
  }

  /** No table and no record is listed with nothing under it. */
  ghost predicate NoEmpties(entries: Entries) {
    forall t :: t in entries ==> entries[t] != map[] && forall id :: id in entries[t] ==> entries[t][id] != []
  }

  /** Only one record's list differs. */
  ghost predicate OnlyAt(before: Entries, after: Entries, table: string, sysId: string) {
    forall t, id :: (t, id) != (table, sysId) ==> At(after, t, id) == At(before, t, id)
  }

  class MissingLedger {
    var entries: Entries

    constructor ()
      ensures entries == map[]
    {
      entries := map[];
    }

    method Field(table: string, sysId: string, f: Field)
      modifies this
      ensures At(entries, table, sysId) == At(old(entries), table, sysId) + [f]
      ensures OnlyAt(old(entries), entries, table, sysId)
      ensures NoEmpties(old(entries)) ==> NoEmpties(entries)
    {
      var byRecord := if table in entries then entries[table] else map[];
      var list := if sysId in byRecord then byRecord[sysId] else [];
      entries := entries[table := byRecord[sysId := list + [f]]];
    }

    /** Every field of a record, unprobed. */
    method WholeRecord(table: string, r: Rec)
      modifies this
      ensures At(entries, table, r.sysId) == At(old(entries), table, r.sysId) + r.files
      ensures OnlyAt(old(entries), entries, table, r.sysId)
      ensures NoEmpties(old(entries)) ==> NoEmpties(entries)
    {
      hide NoEmpties;
      for n := 0 to |r.files|
        invariant At(entries, table, r.sysId) == At(old(entries), table, r.sysId) + r.files[..n]
        invariant OnlyAt(old(entries), entries, table, r.sysId)
        invariant NoEmpties(old(entries)) ==> NoEmpties(entries)
      {
        assert r.files[..n + 1] == r.files[..n] + [r.files[n]];
        Field(table, r.sysId, r.files[n]);
      }
      assert r.files[..|r.files|] == r.files;
    }

    /** Every record of a table, unprobed. */
    method WholeTable(t: TableConfig)
      requires UniqueRecords(t.records) && forall r :: r in t.records ==> At(entries, t.table, r.sysId) == []
      modifies this
      ensures forall r :: r in t.records ==> At(entries, t.table, r.sysId) == r.files
      ensures OnlyRecords(old(entries), entries, t.table, t.records)
      ensures NoEmpties(old(entries)) ==> NoEmpties(entries)
    {
      hide NoEmpties, At;
      for n := 0 to |t.records|
        invariant forall i :: 0 <= i < n ==> At(entries, t.table, t.records[i].sysId) == t.records[i].files
        invariant OnlyRecords(old(entries), entries, t.table, t.records[..n])
        invariant NoEmpties(old(entries)) ==> NoEmpties(entries)
      {
        assert t.records[n] in t.records;
        assert t.records[..n + 1] == t.records[..n] + [t.records[n]];
        WholeRecord(t.table, t.records[n]);
      }
      assert t.records[..|t.records|] == t.records;
    }

    /** Looks for every file of a record and lists what is not there. */
    method ScanRecordFields(w: Workspace, table: string, r: Rec)
      modifies this
      ensures At(entries, table, r.sysId) == At(old(entries), table, r.sysId) + Unfound(w, table, r)
      ensures OnlyAt(old(entries), entries, table, r.sysId)
      ensures NoEmpties(old(entries)) ==> NoEmpties(entries)
    {
      hide NoEmpties, OnDisk, At;
      for n := 0 to |r.files|
        invariant At(entries, table, r.sysId) == At(old(entries), table, r.sysId) + Naive(w, table, r, n)
        invariant OnlyAt(old(entries), entries, table, r.sysId)
        invariant NoEmpties(old(entries)) ==> NoEmpties(entries)
      {
        if !OnDisk(w, table, r, r.files[n]) {
          Field(table, r.sysId, r.files[n]);
        }
      }
    }

    /** A record whose folder is absent is listed whole; in the flat layout there is no folder to look for. */
    method ScanTableRecords(w: Workspace, t: TableConfig)
      requires Closed(w.tree) && UniqueRecords(t.records)
      requires forall r :: r in t.records ==> At(entries, t.table, r.sysId) == []
      modifies this
      ensures forall r :: r in t.records ==> At(entries, t.table, r.sysId) == Unfound(w, t.table, r)
      ensures OnlyRecords(old(entries), entries, t.table, t.records)
      ensures NoEmpties(old(entries)) ==> NoEmpties(entries)
    {
      hide NoEmpties, At, Naive, OnDisk, Closed;
      for n := 0 to |t.records|
        invariant forall i :: 0 <= i < n ==>
          At(entries, t.table, t.records[i].sysId) == Unfound(w, t.table, t.records[i])
        invariant OnlyRecords(old(entries), entries, t.table, t.records[..n])
        invariant NoEmpties(old(entries)) ==> NoEmpties(entries)
      {
        var r := t.records[n];
        assert r in t.records;
        assert t.records[..n + 1] == t.records[..n] + [r];
        if w.flat || DirOf(w, t.table, r) in w.tree {
          ScanRecordFields(w, t.table, r);
        } else {
          AbsentDirectory(w, t.table, r, |r.files|);
          assert r.files[..|r.files|] == r.files;
          WholeRecord(t.table, r);
        }
      }
      assert t.records[..|t.records|] == t.records;
    }

    /** A table whose directory is absent is listed whole. */
    method ScanTables(w: Workspace, manifest: seq<TableConfig>)
      requires Closed(w.tree) && UniqueIds(manifest) && entries == map[]
      modifies this
      ensures forall t, r :: t in manifest && r in t.records ==> At(entries, t.table, r.sysId) == Unfound(w, t.table, r)
      ensures Scanned(entries, manifest)
      ensures NoEmpties(entries)
    {
      hide NoEmpties, At, Naive, OnDisk, Closed;
      NothingListed();
      for n := 0 to |manifest|
        invariant forall i, r :: 0 <= i < n && r in manifest[i].records ==>
          At(entries, manifest[i].table, r.sysId) == Unfound(w, manifest[i].table, r)
        invariant Scanned(entries, manifest[..n])
        invariant NoEmpties(entries)
      {
        var t := manifest[n];
        assert t in manifest;
        assert manifest[..n + 1] == manifest[..n] + [t];
        NotYetScanned(entries, manifest, n);
        ghost var before := entries;
        if [t.table] in w.tree {
          ScanTableRecords(w, t);
        } else {
          forall r | r in t.records ensures Unfound(w, t.table, r) == r.files {
            AbsentDirectory(w, t.table, r, |r.files|);
            assert r.files[..|r.files|] == r.files;
          }
          WholeTable(t);
        }
        ScannedNext(before, entries, manifest[..n], t);
      }
      assert manifest[..|manifest|] == manifest;
    }
  }

  // --- Composite sidecars -----------------------------------------------------

  predicate IsMeta(f: Field) {
    f.name == META_FILE_NAME
  }

  function FirstMeta(files: seq<Field>): (r: Option<Field>)
    ensures r.Some? ==> r.value in files && IsMeta(r.value)
    ensures r.None? ==> forall f :: f in files ==> !IsMeta(f)
  {
    if files == [] then None else if IsMeta(files[0]) then Some(files[0]) else FirstMeta(files[1..])
  }

  function WithoutMeta(files: seq<Field>): (r: seq<Field>)
    ensures forall f :: f in r <==> f in files && !IsMeta(f)
  {
    if files == [] then []
    else (if IsMeta(files[0]) then [] else [files[0]]) + WithoutMeta(files[1..])
  }

  predicate HasMeta(files: seq<Field>) {
    exists f :: f in files && IsMeta(f)
  }

  /** The composite tables of the workspace, and the records the data-model documents hold, by table and name. */
  datatype Documents = Documents(tables: seq<string>, held: set<(string, string)>)

  function RecordName(r: Rec): string {
    if r.name != "" then r.name else r.key
  }

  /** A record's list once the documents have been asked about its sidecar. */
  function Reconciled(docs: Documents, table: string, r: Rec, listed: seq<Field>): seq<Field> {
    var meta := FirstMeta(r.files);
    if table !in docs.tables || meta.None? then listed
    else if (table, RecordName(r)) in docs.held then WithoutMeta(listed)
    else if HasMeta(listed) then listed
    else listed + [meta.value]
  }

  function TableOf(manifest: seq<TableConfig>, table: string): (r: Option<TableConfig>)
    ensures r.Some? ==> r.value in manifest && r.value.table == table
    ensures r.None? ==> forall t :: t in manifest ==> t.table != table
  {
    if manifest == [] then None
    else if manifest[0].table == table then Some(manifest[0])
    else TableOf(manifest[1..], table)
  }

  /** Puts one record's list in place, dropping what is left empty. */
  function Replaced(entries: Entries, table: string, sysId: string, list: seq<Field>): Entries
    requires table in entries && sysId in entries[table]
  {
    if list != [] then entries[table := entries[table][sysId := list]]
    else
      var rest := entries[table] - {sysId};
      if rest != map[] then entries[table := rest] else entries - {table}
  }

  lemma {:induction false} ReplacedAt(entries: Entries, table: string, sysId: string, list: seq<Field>)
    requires table in entries && sysId in entries[table]
    ensures var after := Replaced(entries, table, sysId, list);
      && At(after, table, sysId) == list
      && OnlyAt(entries, after, table, sysId)
      && (NoEmpties(entries) ==> NoEmpties(after))
  {
    var rest := entries[table] - {sysId};
    assert rest == map[] ==> forall id :: id in entries[table] ==> id == sysId by {
      if rest == map[] {
        forall id | id in entries[table] ensures id == sysId {
          assert id != sysId ==> id in rest;
        }
      }
    }
  }

  /** Asks the documents about one record's sidecar. */
  method ReconcileRecord(ledger: MissingLedger, docs: Documents, table: string, r: Rec)
    requires NoEmpties(ledger.entries) && table in docs.tables
    modifies ledger
    ensures At(ledger.entries, table, r.sysId) == Reconciled(docs, table, r, At(old(ledger.entries), table, r.sysId))
    ensures OnlyAt(old(ledger.entries), ledger.entries, table, r.sysId)
    ensures NoEmpties(ledger.entries)
  {
    hide NoEmpties, Replaced, WithoutMeta, FirstMeta;
    var meta := FirstMeta(r.files);
    if meta.None? { return; }
    var held := (table, RecordName(r)) in docs.held;
    var listed := At(ledger.entries, table, r.sysId);
    var listedMeta := HasMeta(listed);
    if held && listedMeta {
      ReplacedAt(ledger.entries, table, r.sysId, WithoutMeta(listed));
      ledger.entries := Replaced(ledger.entries, table, r.sysId, WithoutMeta(listed));
    } else if !held && !listedMeta {
      ledger.Field(table, r.sysId, meta.value);
    } else if held {
      NoMetaToDrop(listed);
    }
  }

  lemma {:induction false} NoMetaToDrop(files: seq<Field>)
    requires !HasMeta(files)
    ensures WithoutMeta(files) == files
  {
    if files != [] {
      assert files[0] in files && forall f :: f in files[1..] ==> f in files;
      NoMetaToDrop(files[1..]);
    }
  }

  /** Under the composite layout a record's sidecar is present when a document holds its entry. */
  method ReconcileCompositeMissing(ledger: MissingLedger, docs: Documents, manifest: seq<TableConfig>)
    requires NoEmpties(ledger.entries) && UniqueIds(manifest) && Distinct(docs.tables)
    modifies ledger
    ensures NoEmpties(ledger.entries)
    ensures forall t, r :: t in manifest && r in t.records ==>
      At(ledger.entries, t.table, r.sysId) == Reconciled(docs, t.table, r, At(old(ledger.entries), t.table, r.sysId))
    ensures forall t, id ::
      (forall c :: c in manifest && c.table == t ==> forall r :: r in c.records ==> r.sysId != id) ==>
      At(ledger.entries, t, id) == At(old(ledger.entries), t, id)
  {
    hide NoEmpties, At, Reconciled;
    ghost var before := ledger.entries;
    for n := 0 to |docs.tables|
      invariant NoEmpties(ledger.entries)
      invariant Halfway(docs, manifest, before, ledger.entries, docs.tables[..n])
    {
      var table := docs.tables[n];
      assert table in docs.tables;
      assert docs.tables[..n + 1] == docs.tables[..n] + [table];
      var config := TableOf(manifest, table);
      ghost var was := ledger.entries;
      if config.Some? {
        var records := config.value.records;
        for m := 0 to |records|
          invariant NoEmpties(ledger.entries)
          invariant forall i :: 0 <= i < m ==>
            At(ledger.entries, table, records[i].sysId) ==
              Reconciled(docs, table, records[i], At(was, table, records[i].sysId))
          invariant OnlyRecords(was, ledger.entries, table, records[..m])
        {
          assert records[..m + 1] == records[..m] + [records[m]];
          NotAmongRecords(records, m);
          ReconcileRecord(ledger, docs, table, records[m]);
        }
        assert records[..|records|] == records;
      }
      HalfwayNext(docs, manifest, before, was, ledger.entries, docs.tables[..n], table);
    }
    assert docs.tables[..|docs.tables|] == docs.tables;
    OtherTablesStand(docs);
  }

  lemma NotAmongRecords(records: seq<Rec>, m: nat)
    requires m < |records| && UniqueRecords(records)
    ensures forall r :: r in records[..m] ==> r.sysId != records[m].sysId
  {}

  lemma OtherTablesStand(docs: Documents)
    ensures forall table, r, listed :: table !in docs.tables ==> Reconciled(docs, table, r, listed) == listed
  {}

  /** The tables of `done` have been reconciled, every other list is as it was. */
  ghost predicate Halfway(
      docs: Documents, manifest: seq<TableConfig>, before: Entries, now: Entries, done: seq<string>)
  {
    && (forall t, r :: t in manifest && r in t.records && t.table in done ==>
          At(now, t.table, r.sysId) == Reconciled(docs, t.table, r, At(before, t.table, r.sysId)))
    && (forall t, id ::
          t !in done || (forall c :: c in manifest && c.table == t ==> forall r :: r in c.records ==> r.sysId != id) ==>
          At(now, t, id) == At(before, t, id))
  }

  lemma HalfwayNext(
      docs: Documents, manifest: seq<TableConfig>, before: Entries, was: Entries, now: Entries, done: seq<string>,
      table: string)
    requires Halfway(docs, manifest, before, was, done) && table !in done && UniqueIds(manifest)
    requires TableOf(manifest, table).None? ==> now == was
    requires TableOf(manifest, table).Some? ==>
      var records := TableOf(manifest, table).value.records;
      && OnlyRecords(was, now, table, records)
      && forall i :: 0 <= i < |records| ==>
           At(now, table, records[i].sysId) == Reconciled(docs, table, records[i], At(was, table, records[i].sysId))
    ensures Halfway(docs, manifest, before, now, done + [table])
  {}

  // --- Dot-walked names -------------------------------------------------------

  /** A column of another record, which is never fetched. */
  predicate Refused(table: string, name: string) {
    name != META_FILE_NAME && '.' in name && !(table == ATF_STEP_TABLE && name == ATF_SCRIPT_FIELD)
  }

  function Fetchable(table: string, files: seq<Field>): (r: seq<Field>)
    ensures forall f :: f in r <==> f in files && !Refused(table, f.name)
  {
    if files == [] then []
    else (if Refused(table, files[0].name) then [] else [files[0]]) + Fetchable(table, files[1..])
  }

  function FetchableRecords(table: string, records: map<string, seq<Field>>): map<string, seq<Field>> {
    map id | id in records && (Fetchable(table, records[id]) != [] || records[id] == []) ::
      Fetchable(table, records[id])
  }

  /** An entry that the filter empties goes with its last file. */
  function WithoutDotWalked(entries: Entries): Entries {
    map t | t in entries && (FetchableRecords(t, entries[t]) != map[] || entries[t] == map[]) ::
      FetchableRecords(t, entries[t])
  }

  lemma {:induction false} FilteredAt(entries: Entries, t: string, id: string)
    ensures At(WithoutDotWalked(entries), t, id) == Fetchable(t, At(entries, t, id))
  {
    hide Fetchable;
    NothingFetchable(t);
    if t in entries && id in entries[t] {
      if Fetchable(t, entries[t][id]) != [] {
        assert id in FetchableRecords(t, entries[t]);
      }
    }
  }

  /** Only a record or a table that the filter empties is dropped; one that was empty before stays. */
  lemma {:induction false} KeptExactlyWhen(entries: Entries, t: string, id: string)
    ensures var kept := WithoutDotWalked(entries);
      && (t in kept && id in kept[t] <==>
            t in entries && id in entries[t]
            && (entries[t][id] == [] || exists f :: f in entries[t][id] && !Refused(t, f.name)))
      && (t in kept && kept[t] == map[] <==> t in entries && entries[t] == map[])
  {
    hide Refused;
    if t in entries && id in entries[t] {
      var list := Fetchable(t, entries[t][id]);
      assert list != [] ==> list[0] in list;
      if entries[t][id] == [] { NothingFetchable(t); }
      assert (list != [] || entries[t][id] == []) ==> id in FetchableRecords(t, entries[t]);
    }
  }

  lemma NothingFetchable(t: string)
    ensures Fetchable(t, []) == []
  {}

  // --- The whole scan ---------------------------------------------------------

  /** At most one file of a record is its sidecar. */
  ghost predicate OneSidecar(r: Rec) {
    forall f, g :: f in r.files && g in r.files && IsMeta(f) && IsMeta(g) ==> f == g
  }

  /** Whether a field has to be fetched, asked of this field alone. */
  predicate Wanted(w: Workspace, docs: Documents, table: string, r: Rec, f: Field) {
    && f in r.files
    && !Refused(table, f.name)
    && if table in docs.tables && IsMeta(f) then (table, RecordName(r)) !in docs.held else !OnDisk(w, table, r, f)
  }

  lemma {:induction false} ListedExactlyWhenWanted(w: Workspace, docs: Documents, table: string, r: Rec, f: Field)
    requires OneSidecar(r)
    ensures f in Fetchable(table, Reconciled(docs, table, r, Unfound(w, table, r))) <==> Wanted(w, docs, table, r, f)
  {
    hide OnDisk, Naive, Fetchable, WithoutMeta, FirstMeta;
    NaiveHolds(w, table, r, |r.files|, f);
    assert r.files[..|r.files|] == r.files;
    var listed := Unfound(w, table, r);
    if IsMeta(f) && HasMeta(listed) {
      var g :| g in listed && IsMeta(g);
      NaiveHolds(w, table, r, |r.files|, g);
    }
  }

  /** Every manifest field to fetch: the fast scan lists exactly what a probe of each field would. */
  method FindMissingFiles(w: Workspace, docs: Documents, manifest: seq<TableConfig>) returns (missing: Entries)
    requires Closed(w.tree) && UniqueIds(manifest) && Distinct(docs.tables)
    ensures forall t, r :: t in manifest && r in t.records ==>
      At(missing, t.table, r.sysId) == Fetchable(t.table, Reconciled(docs, t.table, r, Unfound(w, t.table, r)))
    ensures forall t, r, f :: t in manifest && r in t.records && OneSidecar(r) ==>
      (f in At(missing, t.table, r.sysId) <==> Wanted(w, docs, t.table, r, f))
    ensures Scanned(missing, manifest)
  {
    hide NoEmpties, At, Naive, Unfound, OnDisk, Closed, Reconciled, Fetchable, WithoutDotWalked, Wanted,
      OneSidecar, UniqueIds;
    var ledger := new MissingLedger();
    ledger.ScanTables(w, manifest);
    ghost var scanned := ledger.entries;
    ReconcileCompositeMissing(ledger, docs, manifest);
    missing := WithoutDotWalked(ledger.entries);
    forall t, id ensures At(missing, t, id) == Fetchable(t, At(ledger.entries, t, id)) {
      FilteredAt(ledger.entries, t, id);
    }
    forall t, r, f | t in manifest && r in t.records && OneSidecar(r)
      ensures f in At(missing, t.table, r.sysId) <==> Wanted(w, docs, t.table, r, f)
    {
      ListedExactlyWhenWanted(w, docs, t.table, r, f);
    }
    StillScanned(scanned, ledger.entries, missing, manifest);
  }

  lemma StillScanned(
      scanned: Entries, reconciled: Entries, missing: Entries, manifest: seq<TableConfig>)
    requires Scanned(scanned, manifest)
    requires forall t, id ::
      (forall c :: c in manifest && c.table == t ==> forall r :: r in c.records ==> r.sysId != id) ==>
      At(reconciled, t, id) == At(scanned, t, id)
    requires forall t, id :: At(missing, t, id) == Fetchable(t, At(reconciled, t, id))
    ensures Scanned(missing, manifest)
  {}

  /** Only the lists of these records of one table differ. */
  ghost predicate OnlyRecords(before: Entries, after: Entries, table: string, records: seq<Rec>) {
    forall t, id :: t != table || (forall r :: r in records ==> r.sysId != id) ==> At(after, t, id) == At(before, t, id)
  }

  /** Nothing but the manifest's records is listed. */
  ghost predicate Scanned(entries: Entries, manifest: seq<TableConfig>) {
    forall t, id :: At(entries, t, id) != [] ==>
      exists c :: c in manifest && c.table == t && exists r :: r in c.records && r.sysId == id
  }

  lemma NothingListed()
    ensures NoEmpties(map[]) && Scanned(map[], [])
    ensures forall t, id :: At(map[], t, id) == []
  {}

  lemma NotYetScanned(entries: Entries, manifest: seq<TableConfig>, n: nat)
    requires n < |manifest| && UniqueIds(manifest) && Scanned(entries, manifest[..n])
    ensures forall id :: At(entries, manifest[n].table, id) == []
  {}

  lemma ScannedNext(before: Entries, after: Entries, manifest: seq<TableConfig>, t: TableConfig)
    requires Scanned(before, manifest) && OnlyRecords(before, after, t.table, t.records)
    ensures Scanned(after, manifest + [t])
  {}
}
