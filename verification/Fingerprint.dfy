/** The text a download's work is digested from: it identifies the work, and only the work. */
module Fingerprint {
  import opened Collections
  import opened Joining
  import opened StringOrder
  import opened DownloadResume

  // --- The fingerprint text ---------------------------------------------------

  function Label(f: File): string {
    f.name + ['.'] + f.fileType
  }

  function Labels(files: seq<File>): (r: seq<string>)
    ensures |r| == |files| && forall i :: 0 <= i < |r| ==> r[i] == Label(files[i])
  {
    seq(|files|, i requires 0 <= i < |files| => Label(files[i]))
  }

  function IdsOf(records: seq<RecordWork>): (r: seq<string>)
    ensures |r| == |records| && forall i :: 0 <= i < |r| ==> r[i] == records[i].sysId
  {
    seq(|records|, i requires 0 <= i < |records| => records[i].sysId)
  }

  function FilesOf(records: seq<RecordWork>, sysId: string): seq<File> {
    if records == [] then []
    else if records[0].sysId == sysId then records[0].files
    else FilesOf(records[1..], sysId)
  }

  function RecordText(sysId: string, files: seq<File>): string {
    sysId + [':'] + Join(Sort(Labels(files)), ',')
  }

  function RecordTexts(records: seq<RecordWork>): (r: seq<string>)
  {
    var ids := Sort(IdsOf(records));
    seq(|ids|, i requires 0 <= i < |ids| => RecordText(ids[i], FilesOf(records, ids[i])))
  }

  function TableText(table: string, records: seq<RecordWork>): string {
    table + ['|'] + Join(RecordTexts(records), ';')
  }

  function TableTexts(missing: Missing): seq<string> {
    var tables := Sort(TablesOf(missing));
    seq(|tables|, i requires 0 <= i < |tables| => TableText(tables[i], RecordsOf(missing, tables[i])))
  }

  function Text(missing: Missing): string {
    Join(TableTexts(missing), '\n')
  }

  // --- What it identifies -----------------------------------------------------

  /** Each record of the one is a record of the other, with the same files in some order. */
  ghost predicate RecordsWithin(a: seq<RecordWork>, b: seq<RecordWork>) {
    forall r :: r in a ==> exists q :: q in b && q.sysId == r.sysId && multiset(q.files) == multiset(r.files)
  }

  /** The same files of the same records, up to order. */
  ghost predicate SameRecords(a: seq<RecordWork>, b: seq<RecordWork>) {
    RecordsWithin(a, b) && RecordsWithin(b, a)
  }

  /** Each table of the one is a table of the other, with the same records. */
  ghost predicate TablesWithin(a: Missing, b: Missing) {
    forall w :: w in a ==> exists v :: v in b && v.table == w.table && SameRecords(w.records, v.records)
  }

  /** The same records of the same tables, up to order. */
  ghost predicate SameWork(a: Missing, b: Missing) {
    TablesWithin(a, b) && TablesWithin(b, a)
  }

  const DELIMITERS := {'\n', '|', ';', ':', ','}

  predicate Plain(s: string) {
    forall c :: c in DELIMITERS ==> c !in s
  }

  predicate PlainFile(f: File) {
    Plain(f.name) && Plain(f.fileType) && '.' !in f.fileType
  }

  /** Keys occur once, and no name holds a delimiter. */
  ghost predicate CleanRecords(records: seq<RecordWork>) {
    && Distinct(IdsOf(records))
    && forall r :: r in records ==> Plain(r.sysId) && forall f :: f in r.files ==> PlainFile(f)
  }

  ghost predicate Clean(missing: Missing) {
    && Distinct(TablesOf(missing))
    && forall w :: w in missing ==> Plain(w.table) && CleanRecords(w.records)
  }

  lemma LabelInjective(f: File, g: File)
    requires '.' !in f.fileType && '.' !in g.fileType
    ensures Label(f) == Label(g) <==> f == g
  {
    if Label(f) == Label(g) {
      LastSplit(f.name, f.fileType, g.name, g.fileType, '.');
    }
  }

  lemma {:induction false} LabelCount(files: seq<File>, f: File)
    requires '.' !in f.fileType && forall g :: g in files ==> '.' !in g.fileType
    ensures multiset(Labels(files))[Label(f)] == multiset(files)[f]
  {
    if files != [] {
      assert files == [files[0]] + files[1..];
      assert Labels(files) == [Label(files[0])] + Labels(files[1..]);
      LabelInjective(f, files[0]);
      hide Label, Labels;
      LabelCount(files[1..], f);
    }
  }

  lemma SameLabels(a: seq<File>, b: seq<File>)
    requires forall f :: f in a || f in b ==> '.' !in f.fileType
    ensures multiset(Labels(a)) == multiset(Labels(b)) <==> multiset(a) == multiset(b)
  {
    if multiset(a) == multiset(b) {
      forall l ensures multiset(Labels(a))[l] == multiset(Labels(b))[l] {
        LabelsOnly(a, l);
        LabelsOnly(b, l);
        if f: File :| f in a + b && Label(f) == l {
          LabelCount(a, f);
          LabelCount(b, f);
        } else {
          assert forall f :: f in a ==> f in a + b;
          assert forall f :: f in b ==> f in a + b;
        }
      }
    } else if multiset(Labels(a)) == multiset(Labels(b)) {
      forall f ensures multiset(a)[f] == multiset(b)[f] {
        if f in a || f in b {
          LabelCount(a, f);
          LabelCount(b, f);
        }
      }
      assert false;
    }
  }

  lemma LabelsOnly(files: seq<File>, l: string)
    ensures l in multiset(Labels(files)) ==> exists f :: f in files && Label(f) == l
  {}

  lemma {:induction false} FilesOfPlain(records: seq<RecordWork>, id: string)
    requires forall r :: r in records ==> forall f :: f in r.files ==> PlainFile(f)
    ensures forall f :: f in FilesOf(records, id) ==> PlainFile(f)
  {
    hide PlainFile;
    if records != [] {
      assert records[0] in records;
      FilesOfPlain(records[1..], id);
    }
  }

  lemma RecordTextPlain(id: string, files: seq<File>, c: char)
    requires Plain(id) && forall f :: f in files ==> PlainFile(f)
    requires c in {'\n', '|', ';'}
    ensures c !in RecordText(id, files)
    ensures Parts(Sort(Labels(files)), ',')
  {
    var labels := Sort(Labels(files));
    SortKeepsElements(Labels(files));
    forall i | 0 <= i < |labels| ensures c !in labels[i] && labels[i] != [] && ',' !in labels[i] {
      assert labels[i] in Labels(files);
      var j :| 0 <= j < |files| && Labels(files)[j] == labels[i];
      assert files[j] in files;
    }
    JoinAvoids(labels, ',', c);
  }

  /** One record's text names the record and its files. */
  lemma RecordTextInjective(a: string, f: seq<File>, b: string, g: seq<File>)
    requires Plain(a) && Plain(b) && forall x :: x in f || x in g ==> PlainFile(x)
    ensures RecordText(a, f) == RecordText(b, g) <==> a == b && multiset(f) == multiset(g)
  {
    RecordTextPlain(a, f, ';');
    RecordTextPlain(b, g, ';');
    SameLabels(f, g);
    SortIsCanonical(Labels(f), Labels(g));
    if RecordText(a, f) == RecordText(b, g) {
      FirstSplit(a, Join(Sort(Labels(f)), ','), b, Join(Sort(Labels(g)), ','), ':');
      JoinInjective(Sort(Labels(f)), Sort(Labels(g)), ',');
    }
  }

  lemma SortedIds(records: seq<RecordWork>, id: string)
    ensures id in Sort(IdsOf(records)) <==> exists r :: r in records && r.sysId == id
  {
    SortKeepsElements(IdsOf(records));
    if id in IdsOf(records) {
      var i :| 0 <= i < |records| && IdsOf(records)[i] == id;
      assert records[i] in records;
    }
  }

  lemma RecordTextsPlain(records: seq<RecordWork>, c: char)
    requires CleanRecords(records) && c in {'\n', '|', ';'}
    ensures Parts(RecordTexts(records), c)
  {
    var ids := Sort(IdsOf(records));
    var texts := RecordTexts(records);
    forall i | 0 <= i < |texts| ensures texts[i] != [] && c !in texts[i] {
      SortedIds(records, ids[i]);
      FilesOfPlain(records, ids[i]);
      RecordTextPlain(ids[i], FilesOf(records, ids[i]), c);
    }
  }

  lemma RecordTextAgrees(a: seq<RecordWork>, b: seq<RecordWork>, i: nat)
    requires CleanRecords(a) && CleanRecords(b) && i < |IdsOf(a)| && i < |IdsOf(b)|
    requires |Sort(IdsOf(a))| == |IdsOf(a)| && |Sort(IdsOf(b))| == |IdsOf(b)|
    ensures var ids, jds := Sort(IdsOf(a)), Sort(IdsOf(b));
      RecordTexts(a)[i] == RecordTexts(b)[i] <==>
        ids[i] == jds[i] && multiset(FilesOf(a, ids[i])) == multiset(FilesOf(b, jds[i]))
  {
    var ids, jds := Sort(IdsOf(a)), Sort(IdsOf(b));
    SortedIds(a, ids[i]);
    SortedIds(b, jds[i]);
    FilesOfPlain(a, ids[i]);
    FilesOfPlain(b, jds[i]);
    RecordTextInjective(ids[i], FilesOf(a, ids[i]), jds[i], FilesOf(b, jds[i]));
  }

  /** Texts that agree position by position make equal lists exactly when the keys and all they name agree. */
  lemma ListsAgree(ids: seq<string>, jds: seq<string>, tx: seq<string>, ty: seq<string>, same: string -> bool)
    requires |tx| == |ids| && |ty| == |jds|
    requires forall i :: 0 <= i < |ids| && i < |jds| ==> (tx[i] == ty[i] <==> ids[i] == jds[i] && same(ids[i]))
    ensures tx == ty <==> ids == jds && forall id :: id in ids ==> same(id)
  {}

  ghost predicate FilesAgree(a: seq<RecordWork>, b: seq<RecordWork>) {
    && Elements(IdsOf(a)) == Elements(IdsOf(b))
    && forall id :: id in IdsOf(a) ==> multiset(FilesOf(a, id)) == multiset(FilesOf(b, id))
  }

  lemma RecordTextsAgree(a: seq<RecordWork>, b: seq<RecordWork>)
    requires CleanRecords(a) && CleanRecords(b)
    ensures RecordTexts(a) == RecordTexts(b) <==> FilesAgree(a, b)
  {
    var ids, jds := Sort(IdsOf(a)), Sort(IdsOf(b));
    SortIsCanonical(IdsOf(a), IdsOf(b));
    DistinctMultiset(IdsOf(a), IdsOf(b));
    SortKeepsElements(IdsOf(a));
    SortKeepsElements(IdsOf(b));
    hide CleanRecords;
    var same := id => multiset(FilesOf(a, id)) == multiset(FilesOf(b, id));
    forall i | 0 <= i < |ids| && i < |jds|
      ensures RecordTexts(a)[i] == RecordTexts(b)[i] <==> ids[i] == jds[i] && same(ids[i])
    {
      RecordTextAgrees(a, b, i);
    }
    ListsAgree(ids, jds, RecordTexts(a), RecordTexts(b), same);
    assert (forall id :: id in ids ==> same(id)) <==> (forall id :: id in IdsOf(a) ==> same(id));
  }

  lemma {:induction false} FilesOfFinds(records: seq<RecordWork>, r: RecordWork)
    requires Distinct(IdsOf(records)) && r in records
    ensures FilesOf(records, r.sysId) == r.files && r.sysId in IdsOf(records)
  {
    var ids := IdsOf(records);
    var k :| 0 <= k < |records| && records[k] == r;
    if k > 0 {
      assert ids[0] != ids[k];
      assert IdsOf(records[1..]) == ids[1..] && records[1..][k - 1] == r;
      FilesOfFinds(records[1..], r);
    }
    assert ids[k] == r.sysId;
  }

  lemma NamedRecord(records: seq<RecordWork>, id: string) returns (r: RecordWork)
    requires Distinct(IdsOf(records)) && id in IdsOf(records)
    ensures r in records && r.sysId == id && FilesOf(records, id) == r.files
  {
    var i :| 0 <= i < |records| && IdsOf(records)[i] == id;
    r := records[i];
    FilesOfFinds(records, r);
  }

  lemma SameElements(xs: seq<string>, ys: seq<string>)
    ensures Elements(xs) == Elements(ys) <==> (forall x :: x in xs ==> x in ys) && (forall y :: y in ys ==> y in xs)
  {
    assert forall x :: x in xs <==> x in Elements(xs);
    assert forall y :: y in ys <==> y in Elements(ys);
  }

  lemma {:induction false} WithinByFiles(a: seq<RecordWork>, b: seq<RecordWork>)
    requires Distinct(IdsOf(a)) && Distinct(IdsOf(b))
    ensures RecordsWithin(a, b) <==>
      forall id :: id in IdsOf(a) ==> id in IdsOf(b) && multiset(FilesOf(a, id)) == multiset(FilesOf(b, id))
  {
    hide IdsOf, FilesOf, Distinct;
    if RecordsWithin(a, b) {
      forall id | id in IdsOf(a) ensures id in IdsOf(b) && multiset(FilesOf(a, id)) == multiset(FilesOf(b, id)) {
        var r := NamedRecord(a, id);
        var q :| q in b && q.sysId == r.sysId && multiset(q.files) == multiset(r.files);
        FilesOfFinds(b, q);
      }
    } else {
      var r :| r in a && forall q :: q in b && q.sysId == r.sysId ==> multiset(q.files) != multiset(r.files);
      FilesOfFinds(a, r);
      if r.sysId in IdsOf(b) {
        var q := NamedRecord(b, r.sysId);
      }
    }
  }

  lemma RecordTextsIdentify(a: seq<RecordWork>, b: seq<RecordWork>)
    requires CleanRecords(a) && CleanRecords(b)
    ensures RecordTexts(a) == RecordTexts(b) <==> SameRecords(a, b)
  {
    hide RecordTexts, IdsOf, FilesOf, Distinct, RecordsWithin;
    SameElements(IdsOf(a), IdsOf(b));
    RecordTextsAgree(a, b);
    WithinByFiles(a, b);
    WithinByFiles(b, a);
  }

  lemma TableTextIdentifies(t: string, a: seq<RecordWork>, u: string, b: seq<RecordWork>)
    requires Plain(t) && Plain(u) && CleanRecords(a) && CleanRecords(b)
    ensures TableText(t, a) == TableText(u, b) <==> t == u && SameRecords(a, b)
    ensures TableText(t, a) != [] && '\n' !in TableText(t, a)
  {
    RecordTextsPlain(a, '\n');
    RecordTextsPlain(a, ';');
    RecordTextsPlain(b, ';');
    JoinAvoids(RecordTexts(a), ';', '\n');
    RecordTextsIdentify(a, b);
    if TableText(t, a) == TableText(u, b) {
      FirstSplit(t, Join(RecordTexts(a), ';'), u, Join(RecordTexts(b), ';'), '|');
      JoinInjective(RecordTexts(a), RecordTexts(b), ';');
    }
  }

  lemma TableWorkClean(missing: Missing, t: string)
    requires Clean(missing) && t in Sort(TablesOf(missing))
    ensures Plain(t) && CleanRecords(RecordsOf(missing, t))
  {
    SortKeepsElements(TablesOf(missing));
    var i :| 0 <= i < |missing| && TablesOf(missing)[i] == t;
    assert forall j :: 0 <= j < i ==> TablesOf(missing)[j] != TablesOf(missing)[i];
    RecordsOfTable(missing, i);
    assert missing[i] in missing;
  }

  lemma {:induction false} RecordsOfTable(missing: Missing, i: nat)
    requires i < |missing| && forall j :: 0 <= j < i ==> missing[j].table != missing[i].table
    ensures RecordsOf(missing, missing[i].table) == missing[i].records
  {
    if i > 0 {
      var rest := missing[1..];
      assert rest[i - 1] == missing[i];
      assert forall j :: 0 <= j < i - 1 ==> rest[j] == missing[j + 1];
      RecordsOfTable(rest, i - 1);
    }
  }

  ghost predicate RecordsAgree(a: Missing, b: Missing) {
    && Elements(TablesOf(a)) == Elements(TablesOf(b))
    && forall t :: t in TablesOf(a) ==> SameRecords(RecordsOf(a, t), RecordsOf(b, t))
  }

  lemma TextsAgree(a: Missing, b: Missing)
    requires Clean(a) && Clean(b)
    ensures Text(a) == Text(b) <==> RecordsAgree(a, b)
  {
    var ts, us := Sort(TablesOf(a)), Sort(TablesOf(b));
    SortIsCanonical(TablesOf(a), TablesOf(b));
    DistinctMultiset(TablesOf(a), TablesOf(b));
    TableTextsSplit(a);
    TableTextsSplit(b);
    SortKeepsElements(TablesOf(a));
    SortKeepsElements(TablesOf(b));
    var same := t => SameRecords(RecordsOf(a, t), RecordsOf(b, t));
    forall i | 0 <= i < |ts| && i < |us|
      ensures TableTexts(a)[i] == TableTexts(b)[i] <==> ts[i] == us[i] && same(ts[i])
    {
      hide CleanRecords, TableText, SameRecords, RecordsOf;
      TableWorkClean(a, ts[i]);
      TableWorkClean(b, us[i]);
      TableTextIdentifies(ts[i], RecordsOf(a, ts[i]), us[i], RecordsOf(b, us[i]));
    }
    hide Clean, CleanRecords, TableText, SameRecords, RecordsOf, Sort;
    ListsAgree(ts, us, TableTexts(a), TableTexts(b), same);
    if Text(a) == Text(b) {
      JoinInjective(TableTexts(a), TableTexts(b), '\n');
    }
    assert (forall t :: t in ts ==> same(t)) <==> (forall t :: t in TablesOf(a) ==> same(t));
  }

  lemma NamedTable(missing: Missing, t: string) returns (w: TableWork)
    requires Distinct(TablesOf(missing)) && t in TablesOf(missing)
    ensures w in missing && w.table == t && RecordsOf(missing, t) == w.records
  {
    var i :| 0 <= i < |missing| && TablesOf(missing)[i] == t;
    w := missing[i];
    RecordsOfFinds(missing, w);
  }

  lemma {:induction false} WithinByTables(a: Missing, b: Missing)
    requires Distinct(TablesOf(a)) && Distinct(TablesOf(b))
    ensures TablesWithin(a, b) <==>
      forall t :: t in TablesOf(a) ==> t in TablesOf(b) && SameRecords(RecordsOf(a, t), RecordsOf(b, t))
  {
    hide TablesOf, RecordsOf, Distinct, SameRecords;
    if TablesWithin(a, b) {
      forall t | t in TablesOf(a) ensures t in TablesOf(b) && SameRecords(RecordsOf(a, t), RecordsOf(b, t)) {
        var w := NamedTable(a, t);
        var v :| v in b && v.table == w.table && SameRecords(w.records, v.records);
        RecordsOfFinds(b, v);
      }
    } else {
      var w :| w in a && forall v :: v in b && v.table == w.table ==> !SameRecords(w.records, v.records);
      RecordsOfFinds(a, w);
      if w.table in TablesOf(b) {
        var v := NamedTable(b, w.table);
      }
    }
  }

  lemma SameBothWays()
    ensures forall x, y :: SameRecords(x, y) <==> SameRecords(y, x)
  {}

  /**
    The digested text does not depend on the order of tables, records or files, and
    for names free of its delimiters two maps share it only when they ask for the
    same files of the same records.
   */
  lemma TextIdentifiesTheWork(a: Missing, b: Missing)
    requires Clean(a) && Clean(b)
    ensures Text(a) == Text(b) <==> SameWork(a, b)
  {
    hide Text, TablesOf, RecordsOf, Distinct, SameRecords, CleanRecords, TablesWithin;
    SameElements(TablesOf(a), TablesOf(b));
    TextsAgree(a, b);
    WithinByTables(a, b);
    WithinByTables(b, a);
    SameBothWays();
  }

  lemma TableTextsSplit(missing: Missing)
    requires Clean(missing)
    ensures Parts(TableTexts(missing), '\n')
  {
    var ts := Sort(TablesOf(missing));
    forall i | 0 <= i < |ts| ensures TableTexts(missing)[i] != [] && '\n' !in TableTexts(missing)[i] {
      hide CleanRecords, TableText, RecordsOf;
      TableWorkClean(missing, ts[i]);
      TableTextIdentifies(ts[i], RecordsOf(missing, ts[i]), ts[i], RecordsOf(missing, ts[i]));
    }
  }

  /** An accepted checkpoint was written for the same files of the same records, if the digest has no collision. */
  lemma AcceptedMeansSameWork(digest: string -> string, file: CheckpointFile, job: Job, writer: Job)
    requires Clean(job.missing) && Clean(writer.missing)
    requires job.fingerprint == digest(Text(job.missing)) && writer.fingerprint == digest(Text(writer.missing))
    requires digest(Text(job.missing)) == digest(Text(writer.missing)) ==> Text(job.missing) == Text(writer.missing)
    requires file.Present? && file.checkpoint.fingerprint == Some(writer.fingerprint) && Accepts(file, job)
    ensures SameWork(job.missing, writer.missing)
  {
    TextIdentifiesTheWork(job.missing, writer.missing);
  }
}
