/** The writers' paths are undone by the reader, and the two layouts by each other. */
module LayoutTheorems {
  import opened Collections
  import opened JsText
  import opened Joining
  import opened PathNames
  import opened LayoutCodec

  // --- Segments ---------------------------------------------------------------

  ghost predicate IsSegment(s: string) {
    s != [] && '/' !in s && '\\' !in s
  }

  ghost predicate AreSegments(parts: seq<string>) {
    forall i :: 0 <= i < |parts| ==> IsSegment(parts[i])
  }

  lemma {:induction false} WordOf(w: string, rest: string, separators: set<char>)
    requires forall c :: c in w ==> c !in separators
    requires rest == [] || rest[0] in separators
    ensures Word(w + rest, separators) == w
  {
    if w == [] {
      assert w + rest == rest;
    } else {
      assert w[0] in w;
      assert (w + rest)[1..] == w[1..] + rest;
      WordOf(w[1..], rest, separators);
    }
  }

  lemma {:induction false} SegmentFirst(w: string, rest: string, separators: set<char>)
    requires w != [] && forall c :: c in w ==> c !in separators
    requires rest == [] || rest[0] in separators
    ensures Segments(w + rest, separators) == [w] + Segments(rest, separators)
  {
    hide Word;
    WordOf(w, rest, separators);
    assert (w + rest)[|w|..] == rest;
  }

  lemma SeparatorFirst(s: string, separators: set<char>)
    requires '/' in separators
    ensures Segments(['/'] + s, separators) == Segments(s, separators)
  {}

  lemma {:induction false} SegmentsOfJoin(parts: seq<string>, separators: set<char>)
    requires AreSegments(parts) && {'/'} <= separators <= SEPARATORS
    ensures Segments(Join(parts, '/'), separators) == parts
    decreases |parts|
  {
    hide Word, Segments;
    if parts == [] {
      NoSegments(separators);
    } else {
      var w := parts[0];
      assert IsSegment(w) && forall c :: c in w ==> c !in separators;
      if |parts| == 1 {
        SegmentFirst(w, "", separators);
        NoSegments(separators);
        assert w + "" == w && parts == [w] + [];
      } else {
        var rest := Join(parts[1..], '/');
        assert Join(parts, '/') == w + (['/'] + rest);
        SegmentFirst(w, ['/'] + rest, separators);
        SeparatorFirst(rest, separators);
        assert forall i :: 0 <= i < |parts| - 1 ==> parts[1..][i] == parts[i + 1];
        SegmentsOfJoin(parts[1..], separators);
        assert parts == [w] + parts[1..];
      }
    }
  }

  lemma NoSegments(separators: set<char>)
    ensures Segments("", separators) == []
  {}

  ghost predicate SafeSource(source: Source) {
    AreSegments(source.segments)
  }

  lemma {:induction false} SegmentsOfPath(source: Source, location: seq<string>, separators: set<char>)
    requires SafeSource(source) && AreSegments(location) && {'/'} <= separators <= SEPARATORS
    ensures Segments(PathTo(source, location), separators) == source.segments + location
  {
    var parts := source.segments + location;
    SegmentsOfJoin(parts, separators);
    hide Segments;
    if source.absolute {
      SeparatorFirst(Join(parts, '/'), separators);
    } else {
      assert "" + Join(parts, '/') == Join(parts, '/');
    }
  }

  // --- File names -------------------------------------------------------------

  lemma {:induction false} LastIndexIs(a: string, c: char, b: string)
    requires c !in b
    ensures LastIndexOf(a + [c] + b, c) == Some(|a|)
  {
    var s := a + [c] + b;
    assert s[|a|] == c && c in s;
    assert forall i :: |a| < i < |s| ==> s[i] == b[i - |a| - 1];
  }

  lemma {:induction false} ExtOfFile(a: string, fileType: string)
    requires a != [] && fileType != [] && '.' !in fileType
    ensures Extname(a + ['.'] + fileType) == ['.'] + fileType
    ensures Stem(a + ['.'] + fileType) == a
  {
    var base := a + ['.'] + fileType;
    LastIndexIs(a, '.', fileType);
    assert base[|a|..] == ['.'] + fileType;
    assert base != ".." by {
      assert base[|a| + 1] == fileType[0] && fileType[0] in fileType;
    }
    assert base[..|a|] == a;
  }

  // --- Leftovers --------------------------------------------------------------

  /** The name ends in these letters. */
  ghost predicate EndsAs(name: string, suffix: string) {
    exists front, tail :: name == front + tail && SameLetters(tail, suffix)
  }

  ghost predicate NamesSidecar(name: string) {
    name == ".meta.json" || exists front :: name == front + "~.meta.json"
  }

  /**
    A file an editor or the system left behind: hidden, a backup, a swap or a temporary
    file, or folder metadata; a sidecar is none of them.
   */
  ghost predicate Leftover(name: string) {
    && !NamesSidecar(name)
    && (|| (name != "" && name[0] == '.')
        || EndsAs(name, "~") || EndsAs(name, ".swp") || EndsAs(name, ".swo") || EndsAs(name, ".swx")
        || EndsAs(name, ".bak") || EndsAs(name, ".orig") || EndsAs(name, ".tmp")
        || SameLetters(name, "thumbs.db") || SameLetters(name, "desktop.ini"))
  }

  lemma {:induction false} LeftoverExactlyWhen(name: string)
    requires IsSegment(name)
    ensures IsEditorArtifact(name) <==> Leftover(name)
  {
    hide Leftover, SameLetters, EndsAs, NamesSidecar, Lower;
    OneSegment(name);
    SidecarExactlyWhen(name);
    SuffixWords();
    forall suffix | suffix in ARTIFACT_SUFFIXES ensures EndsWith(Lower(name), suffix) <==> EndsAs(name, suffix) {
      SuffixExactlyWhen(name, suffix);
    }
    LowerSpells(name, "thumbs.db");
    LowerSpells(name, "desktop.ini");
    ArtifactMeans(name);
  }

  lemma ArtifactMeans(name: string)
    requires LastSegment(name) == name && name != ""
    requires IsMetaSidecar(name) <==> NamesSidecar(name)
    requires forall suffix :: suffix in ARTIFACT_SUFFIXES ==> (EndsWith(Lower(name), suffix) <==> EndsAs(name, suffix))
    requires Lower(name) == "thumbs.db" <==> SameLetters(name, "thumbs.db")
    requires Lower(name) == "desktop.ini" <==> SameLetters(name, "desktop.ini")
    ensures IsEditorArtifact(name) <==> Leftover(name)
  {
    hide SameLetters, EndsAs, NamesSidecar, Lower, EndsWith, IsMetaSidecar, LastSegment;
    SuffixWords();
    assert IsEditorArtifact(name) <==>
      !IsMetaSidecar(name)
      && (name[0] == '.' || (exists suffix :: suffix in ARTIFACT_SUFFIXES && EndsWith(Lower(name), suffix))
          || Lower(name) == "thumbs.db" || Lower(name) == "desktop.ini");
  }

  lemma SuffixWords()
    ensures ARTIFACT_SUFFIXES == {"~", ".swp", ".swo", ".swx", ".bak", ".orig", ".tmp"}
    ensures forall s :: s in ARTIFACT_SUFFIXES ==> !HasCapital(s)
    ensures !HasCapital("thumbs.db") && !HasCapital("desktop.ini")
  {}

  lemma {:induction false} OneSegment(name: string)
    requires IsSegment(name)
    ensures LastSegment(name) == name
  {
    hide Segments;
    assert forall c :: c in name ==> c !in SEPARATORS;
    SegmentFirst(name, "", SEPARATORS);
    NoSegments(SEPARATORS);
    assert name + "" == name;
  }

  lemma {:induction false} SidecarExactlyWhen(name: string)
    requires IsSegment(name)
    ensures IsMetaSidecar(name) <==> NamesSidecar(name)
  {
    OneSegment(name);
    hide Segments;
    var suffix := "~.meta.json";
    assert [FLAT_FIELD_SEPARATOR] + META_SIDECAR_FILE_NAME == suffix;
    if EndsWith(name, suffix) {
      assert name == name[..|name| - |suffix|] + suffix;
    }
  }

  lemma {:induction false} SuffixExactlyWhen(name: string, suffix: string)
    requires !HasCapital(suffix)
    ensures EndsWith(Lower(name), suffix) <==> EndsAs(name, suffix)
  {
    hide SameLetters, HasCapital, Lower;
    LowerAt(name);
    if |suffix| <= |name| {
      var k := |name| - |suffix|;
      assert name == name[..k] + name[k..];
      LowerOfTail(name, k);
      LowerSpells(name[k..], suffix);
    }
    if EndsAs(name, suffix) {
      var front, tail :| name == front + tail && SameLetters(tail, suffix);
      SameLength(tail, suffix);
      assert name[|front|..] == tail;
    }
  }

  lemma SameLength(a: string, b: string)
    requires SameLetters(a, b)
    ensures |a| == |b|
  {}

  lemma {:induction false} LowerOfTail(s: string, k: nat)
    requires k <= |s|
    ensures |Lower(s)| == |s| && Lower(s)[k..] == Lower(s[k..])
  {
    hide LowerChar;
    LowerAt(s);
    LowerAt(s[k..]);
  }

  /** What the writers take: one-segment names, a field without the flat separator, a type without a dot. */
  ghost predicate SafeFile(table: string, record: string, f: Field) {
    && SafeComponent(table) && SafeComponent(record) && SafeComponent(f.name) && SafeComponent(f.fileType)
    && FLAT_FIELD_SEPARATOR !in f.name && '.' !in f.fileType
  }

  lemma LocationIsSegments(layout: Layout, table: string, record: string, f: Field)
    requires SafeFile(table, record, f)
    ensures AreSegments(Location(layout, table, record, f))
  {}

  predicate IsSidecarField(f: Field) {
    f == Field(".meta", "json")
  }

  /** The column the tool pushes a field file into. */
  function TargetField(table: string, f: Field): string {
    if IsSidecarField(f) then ".meta" else if table == "sys_atf_step" then "inputs.script" else f.name
  }

  lemma {:induction false} SidecarName(prefix: string, f: Field)
    requires FLAT_FIELD_SEPARATOR !in f.name && '.' !in f.fileType
    ensures EndsWith(prefix + [FLAT_FIELD_SEPARATOR] + f.name + ['.'] + f.fileType,
      [FLAT_FIELD_SEPARATOR] + META_SIDECAR_FILE_NAME)
      <==> IsSidecarField(f)
    ensures f.name + ['.'] + f.fileType == META_SIDECAR_FILE_NAME <==> IsSidecarField(f)
    ensures !EndsWith(f.name + ['.'] + f.fileType, [FLAT_FIELD_SEPARATOR] + META_SIDECAR_FILE_NAME)
  {
    assert META_SIDECAR_FILE_NAME == META_FILE_NAME + ['.'] + "json";
    if f.name + ['.'] + f.fileType == META_SIDECAR_FILE_NAME {
      LastSplit(f.name, f.fileType, META_FILE_NAME, "json", '.');
    }
    var whole := prefix + [FLAT_FIELD_SEPARATOR] + f.name + ['.'] + f.fileType;
    var tail := [FLAT_FIELD_SEPARATOR] + META_SIDECAR_FILE_NAME;
    if EndsWith(whole, tail) {
      var front := whole[..|whole| - |tail|];
      assert whole == front + [FLAT_FIELD_SEPARATOR] + META_FILE_NAME + ['.'] + "json";
      LastSplit(prefix + [FLAT_FIELD_SEPARATOR] + f.name, f.fileType,
        front + [FLAT_FIELD_SEPARATOR] + META_FILE_NAME, "json", '.');
      LastSplit(prefix, f.name, front, META_FILE_NAME, FLAT_FIELD_SEPARATOR);
    }
    if IsSidecarField(f) {
      assert whole[|prefix|..] == tail;
    }
    NoSeparatorBeforeMeta(f);
  }

  lemma {:induction false} NoSeparatorBeforeMeta(f: Field)
    requires FLAT_FIELD_SEPARATOR !in f.name && '.' !in f.fileType
    ensures !EndsWith(f.name + ['.'] + f.fileType, [FLAT_FIELD_SEPARATOR] + META_SIDECAR_FILE_NAME)
  {
    var base := f.name + ['.'] + f.fileType;
    var tail := [FLAT_FIELD_SEPARATOR] + META_SIDECAR_FILE_NAME;
    assert forall i :: 0 <= i < |f.name| ==> base[i] == f.name[i];
    assert forall i :: |f.name| < i < |base| ==> base[i] == f.fileType[i - |f.name| - 1];
    assert tail[0] == FLAT_FIELD_SEPARATOR && tail[6] == '.';
    var n := |base| - |tail|;
    if n >= 0 {
      assert base[n..][0] == base[n] && base[n..][6] == base[n + 6];
    }
  }

  // --- Writing, then reading --------------------------------------------------

  /** A path is read as flat exactly when its file's stem has text before and behind its last separator. */
  lemma {:induction false} FlatEncodedExactlyWhen(path: string)
    ensures IsFlatEncoded(path) <==>
      exists record, name :: record != "" && name != "" && '~' !in name
        && Stem(Basename(path)) == record + "~" + name
  {
    hide Stem, Basename;
    var stem := Stem(Basename(path));
    if IsFlatEncoded(path) {
      var cut := LastIndexOf(stem, '~').value;
      var record, name := stem[..cut], stem[cut + 1..];
      assert forall i :: 0 <= i < |name| ==> name[i] == stem[cut + 1 + i];
      assert '~' !in name && stem == record + "~" + name;
    }
    if record, name :| record != "" && name != "" && '~' !in name && stem == record + "~" + name {
      LastIndexIs(record, '~', name);
      assert stem == record + ['~'] + name;
    }
  }

  /** The decoder gives back the table, the record and the column of every path a writer produces. */
  lemma {:induction false} DecodesWhatWasWritten(
      source: Source, layout: Layout, table: string, record: string, f: Field)
    requires SafeSource(source) && SafeFile(table, record, f)
    ensures DecodeFieldPath(WriterPath(source, layout, table, record, f))
      == Decoded(Some(table), Some(record), TargetField(table, f), IsSidecarField(f))
  {
    if layout.Folder? {
      DecodesFolder(source, table, record, f);
    } else {
      DecodesFlat(source, table, record, f);
    }
  }

  lemma {:induction false} DecodesFolder(source: Source, table: string, record: string, f: Field)
    requires SafeSource(source) && SafeFile(table, record, f)
    ensures DecodeFieldPath(WriterPath(source, Folder, table, record, f))
      == Decoded(Some(table), Some(record), TargetField(table, f), IsSidecarField(f))
  {
    hide SafeComponent, Segments, Extname, LastIndexOf, EndsWith, PathTo;
    var location := Location(Folder, table, record, f);
    LocationIsSegments(Folder, table, record, f);
    SegmentsOfPath(source, location, SEPARATORS);
    SegmentsOfPath(source, location, {'/'});
    SafeIsNotEmpty(table, record, f);
    ExtOfFile(f.name, f.fileType);
    SidecarName("", f);
    EndsWithExt(f.name, f.fileType);
    assert LastIndexOf(f.name, FLAT_FIELD_SEPARATOR).None?;
  }

  lemma SafeIsNotEmpty(table: string, record: string, f: Field)
    requires SafeFile(table, record, f)
    ensures table != [] && record != [] && f.name != [] && f.fileType != []
  {}

  lemma EndsWithExt(a: string, fileType: string)
    ensures var base := a + ['.'] + fileType;
      EndsWith(base, ['.'] + fileType) && base[..|base| - |['.'] + fileType|] == a
  {}

  lemma {:induction false} DecodesFlat(source: Source, table: string, record: string, f: Field)
    requires SafeSource(source) && SafeFile(table, record, f)
    ensures DecodeFieldPath(WriterPath(source, Flat, table, record, f))
      == Decoded(Some(table), Some(record), TargetField(table, f), IsSidecarField(f))
  {
    hide SafeComponent, Segments, Extname, LastIndexOf, EndsWith, PathTo;
    var location := Location(Flat, table, record, f);
    LocationIsSegments(Flat, table, record, f);
    SegmentsOfPath(source, location, SEPARATORS);
    SegmentsOfPath(source, location, {'/'});
    SafeIsNotEmpty(table, record, f);
    var stem := FlatStem(record, f.name);
    ExtOfFile(stem, f.fileType);
    LastIndexIs(record, FLAT_FIELD_SEPARATOR, f.name);
    SidecarName(record, f);
    FlatIsNoFolderSidecar(record, f);
    assert stem[..|record|] == record && stem[|record| + 1..] == f.name;
  }

  lemma {:induction false} FlatIsNoFolderSidecar(record: string, f: Field)
    requires record != []
    ensures FlatStem(record, f.name) + ['.'] + f.fileType != META_SIDECAR_FILE_NAME
  {
    var base := FlatStem(record, f.name) + ['.'] + f.fileType;
    assert base[|record|] == FLAT_FIELD_SEPARATOR;
    assert forall i :: 0 <= i < |META_SIDECAR_FILE_NAME| ==> META_SIDECAR_FILE_NAME[i] != FLAT_FIELD_SEPARATOR;
  }

  /** A written field the manifest tracks is found again, unless its file name is one editors leave behind. */
  lemma {:induction false} FindsWhatWasWritten(
      manifest: Manifest, source: Source, layout: Layout, table: string, record: string, f: Field)
    requires SafeSource(source) && SafeFile(table, record, f)
    requires table in manifest && record in manifest[table]
    requires TargetField(table, f) in manifest[table][record].fields || IsSidecarField(f)
    ensures var path := WriterPath(source, layout, table, record, f);
      GetFileContext(manifest, path) ==
        if IsEditorArtifact(path) then None
        else Some(Context(manifest[table][record].sysId, table, record, TargetField(table, f)))
  {
    hide DecodeFieldPath, WriterPath, IsEditorArtifact;
    DecodesWhatWasWritten(source, layout, table, record, f);
  }

  /** Its file name begins with a dot exactly when the record's does in the flat layout, or the field's in the other. */
  lemma {:induction false} HiddenExactlyWhen(source: Source, layout: Layout, table: string, record: string, f: Field)
    requires SafeSource(source) && SafeFile(table, record, f)
    ensures var base := LastSegment(WriterPath(source, layout, table, record, f));
      base != [] && (base[0] == '.' <==> (if layout.Flat? then record else f.name)[0] == '.')
  {
    hide SafeComponent, Segments;
    var location := Location(layout, table, record, f);
    LocationIsSegments(layout, table, record, f);
    SafeIsNotEmpty(table, record, f);
    SegmentsOfPath(source, location, SEPARATORS);
  }

  /** Two writes share a path only if they are for the same field of the same record in the same layout. */
  lemma {:induction false} PathsAreDistinct(
      source: Source, layout: Layout, table: string, record: string, f: Field,
      layout': Layout, table': string, record': string, f': Field)
    requires SafeSource(source) && SafeFile(table, record, f) && SafeFile(table', record', f')
    requires WriterPath(source, layout, table, record, f) == WriterPath(source, layout', table', record', f')
    ensures layout == layout' && table == table' && record == record' && f == f'
  {
    hide SafeComponent, Segments, PathTo;
    var a, b := Location(layout, table, record, f), Location(layout', table', record', f');
    LocationIsSegments(layout, table, record, f);
    LocationIsSegments(layout', table', record', f');
    SegmentsOfPath(source, a, SEPARATORS);
    SegmentsOfPath(source, b, SEPARATORS);
    assert a == (source.segments + a)[|source.segments|..];
    assert b == (source.segments + b)[|source.segments|..];
    assert a == b;
    assert |a| == |b| && a[0] == b[0] && a[|a| - 1] == b[|b| - 1];
    if layout.Folder? {
      assert a[1] == b[1];
      LastSplit(f.name, f.fileType, f'.name, f'.fileType, '.');
    } else {
      LastSplit(FlatStem(record, f.name), f.fileType, FlatStem(record', f'.name), f'.fileType, '.');
      LastSplit(record, f.name, record', f'.name, FLAT_FIELD_SEPARATOR);
    }
  }

  // --- Folder to flat and back ------------------------------------------------

  lemma StemAndExt(file: string)
    ensures Stem(file) + Extname(file) == file
    ensures file != [] ==> Stem(file) != []
  {}

  /** Putting text in front of a file name keeps an extension it has. */
  lemma {:induction false} ExtBehindPrefix(prefix: string, file: string)
    requires Extname(file) != []
    ensures Extname(prefix + file) == Extname(file)
  {
    var ext := Extname(file);
    var dot := LastIndexOf(file, '.').value;
    var rest := file[dot + 1..];
    assert prefix + file == (prefix + file[..dot]) + ['.'] + rest;
    assert forall i :: 0 <= i < |rest| ==> rest[i] == file[dot + 1 + i];
    LastIndexIs(prefix + file[..dot], '.', rest);
    assert (prefix + file)[|prefix| + dot..] == ext;
    assert |file| >= 2 && (prefix == [] ==> prefix + file == file);
    assert prefix + file != "..";
  }

  /**
    For a normalized path of at least three segments, flat-to-folder undoes
    folder-to-flat exactly when the file's stem holds no separator and the flat file
    name has the same extension, which it has whenever the file has one.
   */
  lemma {:induction false} FlatUndoesFolder(parts: seq<string>)
    requires |parts| >= 3 && AreSegments(parts) && parts[|parts| - 1] != ".."
    ensures var file, record := parts[|parts| - 1], parts[|parts| - 2];
      && (FlatRelToFolder(FolderRelToFlat(Join(parts, '/'))) == Join(parts, '/') <==>
            FLAT_FIELD_SEPARATOR !in Stem(file)
            && Extname(FlatStem(record, Stem(file)) + Extname(file)) == Extname(file))
      && (Extname(file) != [] ==> Extname(FlatStem(record, Stem(file)) + Extname(file)) == Extname(file))
  {
    hide Segments, Extname, LastIndexOf, Stem;
    var n := |parts|;
    var file, record := parts[n - 1], parts[n - 2];
    var stem, ext := Stem(file), Extname(file);
    StemAndExt(file);
    assert FlatStem(record, stem) + ext == record + [FLAT_FIELD_SEPARATOR] + file;
    if ext != [] {
      ExtBehindPrefix(record + [FLAT_FIELD_SEPARATOR], file);
    }
    var flatFile := FlatStem(record, stem) + ext;
    var flat := parts[..n - 2] + [flatFile];
    assert stem + ext == file;
    SegmentsOfJoin(parts, SEPARATORS);
    FlatFileIsSegment(record, file);
    SegmentsOfJoin(flat, SEPARATORS);
    assert flat[..n - 2] == parts[..n - 2];
    FlatFileReads(parts, record, stem, ext);
  }

  lemma FlatFileIsSegment(record: string, file: string)
    requires IsSegment(record) && IsSegment(file)
    ensures IsSegment(record + [FLAT_FIELD_SEPARATOR] + file)
  {}

  lemma {:induction false} JoinTells(a: seq<string>, b: seq<string>)
    requires AreSegments(a) && AreSegments(b)
    ensures Join(a, '/') == Join(b, '/') <==> a == b
  {
    SegmentsOfJoin(a, SEPARATORS);
    SegmentsOfJoin(b, SEPARATORS);
  }

  /** A flat-encoded file name taken apart. */
  lemma {:induction false} SplitsFlat(front: seq<string>, file: string, flat: string, cut: nat)
    requires front != [] && Segments(flat, SEPARATORS) == front + [file]
    requires LastIndexOf(Stem(file), FLAT_FIELD_SEPARATOR) == Some(cut) && 0 < cut < |Stem(file)| - 1
    ensures FlatRelToFolder(flat) ==
      Join(front + [Stem(file)[..cut], Stem(file)[cut + 1..] + Extname(file)], '/')
  {
    hide Segments, Join, Extname, LastIndexOf, Stem;
    assert (front + [file])[..|front|] == front;
  }

  lemma LeavesFlat(front: seq<string>, file: string, flat: string)
    requires front != [] && Segments(flat, SEPARATORS) == front + [file]
    requires var cut := LastIndexOf(Stem(file), FLAT_FIELD_SEPARATOR);
      cut.None? || cut.value == 0 || cut.value == |Stem(file)| - 1
    ensures FlatRelToFolder(flat) == flat
  {}

  /** How the flat file's name is read back. */
  lemma {:induction false} FlatFileReads(parts: seq<string>, record: string, stem: string, ext: string)
    requires |parts| >= 3 && AreSegments(parts) && record == parts[|parts| - 2] && stem + ext == parts[|parts| - 1]
    requires stem != [] && ext == Extname(stem + ext) && stem + ext != ".."
    ensures var n := |parts|;
      var flat := Join(parts[..n - 2] + [FlatStem(record, stem) + ext], '/');
      Segments(flat, SEPARATORS) == parts[..n - 2] + [FlatStem(record, stem) + ext] ==>
        (FlatRelToFolder(flat) == Join(parts, '/') <==>
          FLAT_FIELD_SEPARATOR !in stem && Extname(FlatStem(record, stem) + ext) == ext)
  {
    hide Segments, Join, Extname, LastIndexOf, Stem, FlatRelToFolder;
    var n := |parts|;
    var front := parts[..n - 2];
    var file := FlatStem(record, stem) + ext;
    var flat := Join(front + [file], '/');
    assert IsSegment(record) && IsSegment(parts[n - 1]);
    assert file == record + [FLAT_FIELD_SEPARATOR] + parts[n - 1];
    FlatFileIsSegment(record, parts[n - 1]);
    assert parts == front + [record, stem + ext];
    var cut := LastIndexOf(Stem(file), FLAT_FIELD_SEPARATOR);
    if Segments(flat, SEPARATORS) == front + [file] {
      if cut.Some? && 0 < cut.value < |Stem(file)| - 1 {
        SplitsFlat(front, file, flat, cut.value);
        BackToParts(front, record, stem, ext, cut.value);
        CutAtRecord(record, stem, ext, Stem(file), cut.value);
      } else {
        LeavesFlat(front, file, flat);
        JoinTells(front + [file], parts);
        NoCut(record, stem, ext, Stem(file));
      }
    }
  }

  lemma {:induction false} BackToParts(front: seq<string>, record: string, stem: string, ext: string, cut: nat)
    requires AreSegments(front + [record, stem + ext])
    requires var s := Stem(FlatStem(record, stem) + ext);
      LastIndexOf(s, FLAT_FIELD_SEPARATOR) == Some(cut) && 0 < cut < |s| - 1
    ensures var file := FlatStem(record, stem) + ext;
      Join(front + [Stem(file)[..cut], Stem(file)[cut + 1..] + Extname(file)], '/') ==
        Join(front + [record, stem + ext], '/')
      <==> Stem(file)[..cut] == record
  {
    hide Extname, LastIndexOf, Stem, Join;
    var file := FlatStem(record, stem) + ext;
    var s := Stem(file);
    var a, b := s[..cut], s[cut + 1..] + Extname(file);
    StemAndExt(file);
    CutSplits(s, cut);
    assert file == a + [FLAT_FIELD_SEPARATOR] + b && file == record + [FLAT_FIELD_SEPARATOR] + (stem + ext);
    var parts := front + [record, stem + ext];
    assert IsSegment(parts[|front|]) && IsSegment(parts[|front| + 1]);
    FlatFileIsSegment(record, stem + ext);
    SegmentHalves(a, b);
    var back := front + [a, b];
    SameFront(front, parts, back);
    JoinTells(back, parts);
    assert b == file[|a| + 1..] && stem + ext == file[|record| + 1..];
    assert back[|front|] == a && parts[|front|] == record;
    if a == record {
      assert back == parts;
    }
  }

  lemma CutSplits(s: string, cut: nat)
    requires LastIndexOf(s, FLAT_FIELD_SEPARATOR) == Some(cut)
    ensures s == s[..cut] + [FLAT_FIELD_SEPARATOR] + s[cut + 1..]
  {}

  lemma SameFront(front: seq<string>, parts: seq<string>, back: seq<string>)
    requires AreSegments(parts) && front <= parts && front <= back && |back| == |front| + 2
    requires IsSegment(back[|front|]) && IsSegment(back[|front| + 1])
    ensures AreSegments(back)
  {}

  lemma SegmentHalves(a: string, b: string)
    requires IsSegment(a + [FLAT_FIELD_SEPARATOR] + b) && a != [] && b != []
    ensures IsSegment(a) && IsSegment(b)
  {}

  lemma {:induction false} CutAtRecord(record: string, stem: string, ext: string, s: string, cut: nat)
    requires record != [] && stem != [] && ext == Extname(stem + ext) && stem + ext != ".."
    requires s == Stem(FlatStem(record, stem) + ext)
    requires LastIndexOf(s, FLAT_FIELD_SEPARATOR) == Some(cut) && 0 < cut < |s| - 1
    ensures s[..cut] == record <==>
      FLAT_FIELD_SEPARATOR !in stem && Extname(FlatStem(record, stem) + ext) == ext
  {
    hide Extname, LastIndexOf, Stem;
    var file := FlatStem(record, stem) + ext;
    StemAndExt(file);
    assert s + Extname(file) == file;
    if Extname(file) == ext {
      assert s == FlatStem(record, stem);
      if FLAT_FIELD_SEPARATOR !in stem {
        LastIndexIs(record, FLAT_FIELD_SEPARATOR, stem);
        assert s[..|record|] == record;
      }
      if s[..cut] == record {
        assert stem == s[cut + 1..];
      }
    } else if s[..cut] == record {
      NoSuchCut(record, stem, ext, s);
    }
  }

  lemma {:induction false} NoSuchCut(record: string, stem: string, ext: string, s: string)
    requires record != [] && stem != [] && ext == Extname(stem + ext) && stem + ext != ".."
    requires s == Stem(FlatStem(record, stem) + ext) && Extname(FlatStem(record, stem) + ext) != ext
    ensures |s| <= |record| + 1
  {
    hide LastIndexOf;
    var tail := stem + ext;
    var file := FlatStem(record, stem) + ext;
    assert file == record + [FLAT_FIELD_SEPARATOR] + tail;
    if ext != [] {
      ExtBehindPrefix(record + [FLAT_FIELD_SEPARATOR], tail);
    }
    assert ext == [] && Extname(file) != [];
    var dot := LastIndexOf(file, '.').value;
    assert s == file[..dot];
    assert forall i :: |record| < i < |file| ==> file[i] == tail[i - |record| - 1];
    var d := LastIndexOf(tail, '.');
    assert d.None? || d.value == 0;
  }

  lemma {:induction false} NoCut(record: string, stem: string, ext: string, s: string)
    requires record != [] && stem != []
    requires s == Stem(FlatStem(record, stem) + ext)
    requires var cut := LastIndexOf(s, FLAT_FIELD_SEPARATOR); cut.None? || cut.value == 0 || cut.value == |s| - 1
    ensures !(FLAT_FIELD_SEPARATOR !in stem && Extname(FlatStem(record, stem) + ext) == ext)
  {
    hide Extname, LastIndexOf, Stem;
    StemAndExt(FlatStem(record, stem) + ext);
    if FLAT_FIELD_SEPARATOR !in stem {
      LastIndexIs(record, FLAT_FIELD_SEPARATOR, stem);
      assert Extname(FlatStem(record, stem) + ext) == ext ==> s == FlatStem(record, stem);
    }
  }
}
