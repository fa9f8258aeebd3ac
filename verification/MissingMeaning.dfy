/** What the missing-file scan lists, said of the files the writers make. */
module MissingMeaning {
  import opened PathNames
  import opened LayoutCodec
  import opened LayoutTheorems
  import opened MissingScan

  /** A directory lists names that are one segment each. */
  ghost predicate Plain(tree: Tree) {
    forall p, i :: p in tree && 0 <= i < |p| ==> IsSegment(p[i])
  }

  /** The name a field is looked for under: the column's, behind its record's in the flat layout. */
  function LookedForAs(flat: bool, r: Rec, f: Field): string {
    if flat then r.name + "~" + f.name else f.name
  }

  /** Where a field is looked for: the table's directory, or the record's folder there. */
  function LookedForIn(flat: bool, table: string, r: Rec): seq<string> {
    if flat then [table] else if r.name != "" then [table, r.name] else [table, r.key]
  }

  /**
    A file stands for a field: the very file the writer would make, or one of the same
    name, letter forms aside, under any extension, that nothing left behind.
   */
  ghost predicate StandsFor(w: Workspace, dir: seq<string>, name: string, fileType: string) {
    || dir + [name + "." + fileType] in w.tree
    || exists stem, ext :: dir + [stem + "." + ext] in w.tree && OtherForm(w.canon, stem, ext, name)
  }

  ghost predicate OtherForm(canon: string -> string, stem: string, ext: string, name: string) {
    && stem != "" && '.' !in ext && stem + "." + ext != ".."
    && canon(stem) == canon(name) && !Leftover(stem + "." + ext)
  }

  ghost predicate HasFile(w: Workspace, table: string, r: Rec, f: Field) {
    StandsFor(w, LookedForIn(w.flat, table, r), LookedForAs(w.flat, r, f), f.fileType)
  }

  lemma {:induction false} StemAndExtAre(stem: string, ext: string)
    requires stem != "" && '.' !in ext && stem + "." + ext != ".."
    ensures Extname(stem + "." + ext) == "." + ext && Stem(stem + "." + ext) == stem
  {
    LastIndexIs(stem, '.', ext);
    var base := stem + "." + ext;
    assert base[|stem|..] == "." + ext && base[..|stem|] == stem;
  }

  /** A name with an extension is its stem, a dot and the rest. */
  lemma {:induction false} PartsOf(entry: string) returns (ext: string)
    requires Extname(entry) != ""
    ensures entry == Stem(entry) + "." + ext && Stem(entry) != "" && '.' !in ext && entry != ".."
  {
    var dot := LastIndexOf(entry, '.').value;
    ext := entry[dot + 1..];
    assert entry == entry[..dot] + "." + ext;
    assert entry[dot..] == Extname(entry);
  }

  lemma {:induction false} RepresentsExactlyWhen(canon: string -> string, entry: string, name: string)
    requires IsSegment(entry)
    ensures Represents(canon, entry, name) <==>
      exists stem, ext :: entry == stem + "." + ext && OtherForm(canon, stem, ext, name)
  {
    hide Extname, Stem, IsEditorArtifact, Leftover;
    LeftoverExactlyWhen(entry);
    if Represents(canon, entry, name) {
      var ext := PartsOf(entry);
      assert OtherForm(canon, Stem(entry), ext, name);
    }
    if stem, ext :| entry == stem + "." + ext && OtherForm(canon, stem, ext, name) {
      StemAndExtAre(stem, ext);
    }
  }

  lemma {:induction false} ProbeExactlyWhen(w: Workspace, dir: seq<string>, f: Field)
    requires Plain(w.tree)
    ensures Probe(w.canon, w.tree, dir, f) <==> StandsFor(w, dir, f.name, f.fileType)
  {
    hide Represents, OtherForm;
    assert FieldFileName(f) == f.name + "." + f.fileType;
    if p :| p in w.tree && IsIn(p, dir) && Represents(w.canon, p[|dir|], f.name) {
      assert IsSegment(p[|dir|]);
      RepresentsExactlyWhen(w.canon, p[|dir|], f.name);
      var stem, ext :| p[|dir|] == stem + "." + ext && OtherForm(w.canon, stem, ext, f.name);
      assert p == dir + [stem + "." + ext];
    }
    if stem, ext :| dir + [stem + "." + ext] in w.tree && OtherForm(w.canon, stem, ext, f.name) {
      var p := dir + [stem + "." + ext];
      assert IsIn(p, dir) && p[|dir|] == stem + "." + ext && IsSegment(p[|dir|]);
      RepresentsExactlyWhen(w.canon, p[|dir|], f.name);
    }
  }

  /** The probe answers yes exactly when some file stands for the field. */
  lemma {:induction false} OnDiskExactlyWhen(w: Workspace, table: string, r: Rec, f: Field)
    requires Plain(w.tree)
    ensures OnDisk(w, table, r, f) <==> HasFile(w, table, r, f)
  {
    hide Probe, StandsFor;
    var probe := ProbeName(w, r, f);
    assert probe.name == LookedForAs(w.flat, r, f) && probe.fileType == f.fileType;
    ProbeExactlyWhen(w, DirOf(w, table, r), probe);
  }

  /** A column of another record: its name has a dot, and it is neither a sidecar nor the script of an ATF step. */
  predicate DotWalked(table: string, f: Field) {
    '.' in f.name && f.name != ".meta" && !(table == "sys_atf_step" && f.name == "inputs.script")
  }

  /** Whether a field of the manifest has to be fetched. */
  ghost predicate Lacking(w: Workspace, docs: Documents, table: string, r: Rec, f: Field) {
    && f in r.files && !DotWalked(table, f)
    && if table in docs.tables && f.name == ".meta"
       then (table, if r.name != "" then r.name else r.key) !in docs.held
       else !HasFile(w, table, r, f)
  }

  lemma {:induction false} WantedExactlyWhenLacking(w: Workspace, docs: Documents, table: string, r: Rec, f: Field)
    requires Plain(w.tree)
    ensures Wanted(w, docs, table, r, f) <==> Lacking(w, docs, table, r, f)
  {
    hide OnDisk, HasFile;
    OnDiskExactlyWhen(w, table, r, f);
  }

  /**
    What the scan promises of its list, read on the disk: a field is listed exactly when
    nothing stands for it, or, for the sidecar of a composite table, when no document
    holds its entry.
   */
  lemma {:induction false} ScanListsTheLacking(
      w: Workspace, docs: Documents, manifest: seq<TableConfig>, missing: Entries)
    requires Plain(w.tree)
    requires forall t, r, f :: t in manifest && r in t.records && OneSidecar(r) ==>
      (f in At(missing, t.table, r.sysId) <==> Wanted(w, docs, t.table, r, f))
    ensures forall t, r, f :: t in manifest && r in t.records && OneSidecar(r) ==>
      (f in At(missing, t.table, r.sysId) <==> Lacking(w, docs, t.table, r, f))
  {
    hide Wanted, Lacking, OnDisk, Plain;
    forall t, r, f | t in manifest && r in t.records && OneSidecar(r)
      ensures f in At(missing, t.table, r.sysId) <==> Lacking(w, docs, t.table, r, f)
    {
      WantedExactlyWhenLacking(w, docs, t.table, r, f);
    }
  }

  // --- The same of the writers' files -----------------------------------------

  function LayoutOf(flat: bool): Layout {
    if flat then Flat else Folder
  }

  /** What was written for a field is found for it, and so is a file of the same column under another extension. */
  lemma {:induction false} WrittenIsFound(w: Workspace, table: string, r: Rec, f: Field, ext: string)
    requires SafeFile(table, r.name, f) && SafeFile(table, r.name, Field(f.name, ext))
    requires var location := Location(LayoutOf(w.flat), table, r.name, Field(f.name, ext));
      location in w.tree && (ext == f.fileType || !Leftover(location[|location| - 1]))
    ensures HasFile(w, table, r, f)
  {
    hide Leftover;
    SafeIsNotEmpty(table, r.name, Field(f.name, ext));
    var name := LookedForAs(w.flat, r, f);
    var location := Location(LayoutOf(w.flat), table, r.name, Field(f.name, ext));
    assert location == LookedForIn(w.flat, table, r) + [name + "." + ext];
    if ext != f.fileType {
      assert name + "." + ext != ".." by {
        assert (name + "." + ext)[|name| + 1] == ext[0] && ext[0] in ext;
      }
      assert OtherForm(w.canon, name, ext, name);
    }
  }

  /** A file that was written for another field, or for another record's, of another name. */
  ghost predicate WrittenForAnother(w: Workspace, table: string, r: Rec, f: Field, p: seq<string>) {
    exists r': string, f': Field ::
      && SafeFile(table, r', f') && p == Location(LayoutOf(w.flat), table, r', f')
      && (w.flat ==> w.canon(r' + "~" + f'.name) != w.canon(r.name + "~" + f.name))
      && (!w.flat ==> w.canon(f'.name) != w.canon(f.name))
  }

  /** A field is lacking where each file there was written for another, was left behind, or has no extension. */
  lemma {:induction false} OthersDoNotStand(w: Workspace, table: string, r: Rec, f: Field)
    requires r.name != "" && SafeFile(table, r.name, f)
    requires Location(LayoutOf(w.flat), table, r.name, f) !in w.tree
    requires forall entry :: LookedForIn(w.flat, table, r) + [entry] in w.tree ==>
      || Leftover(entry) || '.' !in entry
      || WrittenForAnother(w, table, r, f, LookedForIn(w.flat, table, r) + [entry])
    ensures !HasFile(w, table, r, f)
  {
    hide Leftover, SafeComponent;
    var dir, name := LookedForIn(w.flat, table, r), LookedForAs(w.flat, r, f);
    assert dir + [name + "." + f.fileType] == Location(LayoutOf(w.flat), table, r.name, f);
    if stem, ext :| dir + [stem + "." + ext] in w.tree && OtherForm(w.canon, stem, ext, name) {
      var entry := stem + "." + ext;
      assert entry[|stem|] == '.';
      var r', f' :| SafeFile(table, r', f') && dir + [entry] == Location(LayoutOf(w.flat), table, r', f')
        && (w.flat ==> w.canon(r' + "~" + f'.name) != w.canon(r.name + "~" + f.name))
        && (!w.flat ==> w.canon(f'.name) != w.canon(f.name));
      SameStem(w.flat, dir, entry, table, r', f', stem, ext);
      assert false;
    }
  }

  lemma {:induction false} SameStem(
      flat: bool, dir: seq<string>, entry: string, table: string, record: string, f: Field, stem: string, ext: string)
    requires SafeFile(table, record, f) && dir + [entry] == Location(LayoutOf(flat), table, record, f)
    requires entry == stem + "." + ext && '.' !in ext
    ensures stem == if flat then record + "~" + f.name else f.name
  {
    var location := Location(LayoutOf(flat), table, record, f);
    assert entry == location[|location| - 1];
    var name := if flat then record + "~" + f.name else f.name;
    assert entry == name + ['.'] + f.fileType;
    Joining.LastSplit(stem, ext, name, f.fileType, '.');
  }
}
