/** Where a record's field lives on disk, and how a path is read back into the field it holds. */
module LayoutCodec {
  import opened Collections
  import opened JsText
  import opened Joining

  // --- Paths ------------------------------------------------------------------

  const SEPARATORS := {'/', '\\'}

  /** The longest stretch of text at the front without a separator. */
  function Word(s: string, separators: set<char>): (w: string)
    ensures w <= s && forall c :: c in w ==> c !in separators
    ensures |w| < |s| ==> s[|w|] in separators
  {
    if s == [] || s[0] in separators then [] else [s[0]] + Word(s[1..], separators)
  }

  /** The segments of a path, empty ones dropped. */
  function Segments(s: string, separators: set<char>): (r: seq<string>)
    ensures forall w :: w in r ==> w != [] && forall c :: c in w ==> c !in separators
    decreases |s|
  {
    if s == [] then []
    else
      var w := Word(s, separators);
      if w == [] then Segments(s[1..], separators) else [w] + Segments(s[|w|..], separators)
  }

  /** The last segment, whichever separator the path was written with. */
  function LastSegment(s: string): string {
    var segments := Segments(s, SEPARATORS);
    if segments == [] then "" else segments[|segments| - 1]
  }

  /** `path.basename`. */
  function Basename(s: string): string {
    var segments := Segments(s, {'/'});
    if segments == [] then "" else segments[|segments| - 1]
  }

  /** `path.basename(path.dirname(s))`. */
  function ParentName(s: string): string {
    var segments := Segments(s, {'/'});
    if |segments| >= 2 then segments[|segments| - 2] else if s != [] && s[0] == '/' then "" else "."
  }

  function LastIndexOf(s: string, c: char): (r: Option<nat>)
    ensures r.Some? ==> r.value < |s| && s[r.value] == c && forall i :: r.value < i < |s| ==> s[i] != c
    ensures r.None? ==> c !in s
  {
    if s == [] then None
    else if s[|s| - 1] == c then Some(|s| - 1)
    else LastIndexOf(s[..|s| - 1], c)
  }

  /** `path.extname` of a file name. */
  function Extname(base: string): (ext: string)
    ensures |ext| <= |base| && base[|base| - |ext|..] == ext
    ensures ext != [] ==> |ext| < |base| && ext[0] == '.'
  {
    var dot := LastIndexOf(base, '.');
    if dot.None? || dot.value == 0 || base == ".." then "" else base[dot.value..]
  }

  /** `path.basename(base, path.extname(base))`. */
  function Stem(base: string): string {
    base[..|base| - |Extname(base)|]
  }

  predicate EndsWith(s: string, suffix: string) {
    |suffix| <= |s| && s[|s| - |suffix|..] == suffix
  }

  // --- Writing ----------------------------------------------------------------

  const FLAT_FIELD_SEPARATOR := '~'

  datatype Field = Field(name: string, fileType: string)

  function FieldFileName(f: Field): string {
    f.name + ['.'] + f.fileType
  }

  function FlatStem(record: string, name: string): string {
    record + [FLAT_FIELD_SEPARATOR] + name
  }

  datatype Layout = Folder | Flat

  /** The source directory: its segments, and whether it is absolute. */
  datatype Source = Source(segments: seq<string>, absolute: bool)

  /** The file a writer gives a record's field, relative to the source directory. */
  function Location(layout: Layout, table: string, record: string, f: Field): seq<string> {
    if layout.Folder? then [table, record, FieldFileName(f)]
    else [table, FieldFileName(Field(FlatStem(record, f.name), f.fileType))]
  }

  function PathTo(source: Source, location: seq<string>): string {
    (if source.absolute then "/" else "") + Join(source.segments + location, '/')
  }

  function WriterPath(source: Source, layout: Layout, table: string, record: string, f: Field): string {
    PathTo(source, Location(layout, table, record, f))
  }

  // --- Reading ----------------------------------------------------------------

  const META_FILE_NAME := ".meta"
  const META_SIDECAR_FILE_NAME := ".meta.json"
  const ATF_STEP_TABLE := "sys_atf_step"
  const ATF_SCRIPT_FIELD := "inputs.script"

  predicate IsMetaSidecar(path: string) {
    var base := LastSegment(path);
    base == META_SIDECAR_FILE_NAME || EndsWith(base, [FLAT_FIELD_SEPARATOR] + META_SIDECAR_FILE_NAME)
  }

  /** A separator inside the file's stem, with text on both sides. */
  predicate IsFlatEncoded(path: string) {
    var stem := Stem(Basename(path));
    var cut := LastIndexOf(stem, FLAT_FIELD_SEPARATOR);
    cut.Some? && 0 < cut.value < |stem| - 1
  }

  function FieldForTable(table: string, stem: string): string {
    if table == ATF_STEP_TABLE then ATF_SCRIPT_FIELD else stem
  }

  datatype Decoded = Decoded(table: Option<string>, record: Option<string>, field: string, isSidecar: bool)

  function DecodeFlat(path: string): Decoded
    requires IsFlatEncoded(path)
  {
    var table := ParentName(path);
    var stem := Stem(Basename(path));
    var cut := LastIndexOf(stem, FLAT_FIELD_SEPARATOR).value;
    Decoded(Some(table), Some(stem[..cut]), FieldForTable(table, stem[cut + 1..]), false)
  }

  /** The table and the record are the two segments before the file. */
  function DecodeFolder(path: string): Decoded {
    var segments := Segments(path, SEPARATORS);
    var n := |segments|;
    var file := LastSegment(path);
    var ext := Extname(Basename(path));
    var stem := if EndsWith(file, ext) then file[..|file| - |ext|] else file;
    if n >= 3 then Decoded(Some(segments[n - 3]), Some(segments[n - 2]), FieldForTable(segments[n - 3], stem), false)
    else if n == 2 then Decoded(Some(segments[0]), None, FieldForTable(segments[0], stem), false)
    else Decoded(None, None, stem, false)
  }

  /** The sidecar is told by its file name, whatever the layouts make of it. */
  function DecodeFieldPath(path: string): Decoded {
    var decoded := if IsFlatEncoded(path) then DecodeFlat(path) else DecodeFolder(path);
    if IsMetaSidecar(path) then decoded.(field := META_FILE_NAME, isSidecar := true) else decoded
  }

  const ARTIFACT_SUFFIXES := {"~", ".swp", ".swo", ".swx", ".bak", ".orig", ".tmp"}

  /** Names under which editors and operating systems leave files of their own. */
  predicate IsEditorArtifact(path: string) {
    var base := LastSegment(path);
    && !IsMetaSidecar(path)
    && ((base != [] && base[0] == '.')
        || (exists suffix :: suffix in ARTIFACT_SUFFIXES && EndsWith(Lower(base), suffix))
        || Lower(base) in {"thumbs.db", "desktop.ini"})
  }

  datatype Record = Record(sysId: string, fields: set<string>)

  /** The manifest's records, by table and record name. */
  type Manifest = map<string, map<string, Record>>

  datatype Context = Context(sysId: string, table: string, record: string, field: string)

  /** The record and field a local file represents, if the manifest tracks it. */
  function GetFileContext(manifest: Manifest, path: string): Option<Context> {
    var d := DecodeFieldPath(path);
    if IsEditorArtifact(path) || d.table.None? || d.record.None? then None
    else if d.table.value !in manifest || d.record.value !in manifest[d.table.value] then None
    else
      var record := manifest[d.table.value][d.record.value];
      if d.field !in record.fields && !d.isSidecar then None
      else Some(Context(record.sysId, d.table.value, d.record.value, d.field))
  }

  // --- Between the layouts ----------------------------------------------------

  /** `<table>/<record>/<field>.<ext>` to `<table>/<record>~<field>.<ext>`. */
  function FolderRelToFlat(path: string): string {
    var parts := Segments(path, SEPARATORS);
    var n := |parts|;
    if n < 3 then path
    else
      var file := parts[n - 1];
      Join(parts[..n - 2] + [FlatStem(parts[n - 2], Stem(file)) + Extname(file)], '/')
  }

  /** And back; a path that is not flat-encoded is left as it is. */
  function FlatRelToFolder(path: string): string {
    var parts := Segments(path, SEPARATORS);
    var n := |parts|;
    if n < 2 then path
    else
      var file := parts[n - 1];
      var stem := Stem(file);
      var cut := LastIndexOf(stem, FLAT_FIELD_SEPARATOR);
      if cut.None? || cut.value == 0 || cut.value == |stem| - 1 then path
      else Join(parts[..n - 1] + [stem[..cut.value], stem[cut.value + 1..] + Extname(file)], '/')
  }
}
