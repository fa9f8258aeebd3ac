/** Listing the files of a source or build tree: a work list, last in first out, bounded in depth. */
module TreeWalk {
  import opened Collections

  /** An absolute path, as its segments. */
  type Path = seq<string>

  datatype Node = File | Directory | Link | Nothing

  /**
    The disk: what stands at a path, what a link there leads to, and a directory's
    listing (none when it cannot be read).
   */
  datatype Disk = Disk(at: Path -> Node, behind: Path -> Node, list: Path -> seq<string>)

  const MAX_SCAN_DEPTH := 20

  /** What the walk takes an entry for: links are skipped, but a configured root may be one. */
  function Classify(disk: Disk, p: Path, followLink: bool): (n: Node)
    ensures n == Directory || n == File || n == Nothing
  {
    var n := if followLink && disk.at(p).Link? then disk.behind(p) else disk.at(p);
    if n.Link? then Nothing else n
  }

  function PermittedRoots(source: Path, build: Path, target: Path): Option<set<Path>> {
    if source <= target then Some({source})
    else if build <= target then Some({source, build})
    else None
  }

  // --- The files of a tree ----------------------------------------------------

  /** The files under an entry, in the order the walk meets them: the last name listed comes first. */
  function FilesUnder(disk: Disk, p: Path, depth: nat, followLink: bool): seq<Path>
    requires depth <= MAX_SCAN_DEPTH
    decreases MAX_SCAN_DEPTH - depth, 1, 0
  {
    match Classify(disk, p, followLink)
    case File => [p]
    case Directory => if depth == MAX_SCAN_DEPTH then [] else FilesBelow(disk, p, disk.list(p), depth)
    case _ => []
  }

  function FilesBelow(disk: Disk, p: Path, names: seq<string>, depth: nat): seq<Path>
    requires depth < MAX_SCAN_DEPTH
    decreases MAX_SCAN_DEPTH - depth, 0, |names|
  {
    if names == [] then []
    else
      FilesUnder(disk, p + [names[|names| - 1]], depth + 1, false) + FilesBelow(disk, p, names[..|names| - 1], depth)
  }

  // --- What that means --------------------------------------------------------

  /** From `p`, the remaining names lead through real directories that list them to a file. */
  ghost predicate LeadsToFile(disk: Disk, p: Path, names: seq<string>, followLink: bool)
    decreases |names|
  {
    if names == [] then Classify(disk, p, followLink).File?
    else
      && Classify(disk, p, followLink).Directory? && names[0] in disk.list(p)
      && LeadsToFile(disk, p + [names[0]], names[1..], false)
  }

  ghost predicate Tidy(disk: Disk) {
    forall p :: Distinct(disk.list(p))
  }

  /**
    A path is listed if and only if it leads from the entry through at most the levels
    left, by listed names and without passing a link, to a file.
   */
  lemma {:induction false} ListedExactlyWhen(disk: Disk, p: Path, depth: nat, followLink: bool, q: Path)
    requires depth <= MAX_SCAN_DEPTH
    ensures q in FilesUnder(disk, p, depth, followLink) <==>
      p <= q && |q| - |p| <= MAX_SCAN_DEPTH - depth && LeadsToFile(disk, p, q[|p|..], followLink)
    decreases MAX_SCAN_DEPTH - depth, 1, 0
  {
    if p <= q && q[|p|..] == [] {
      assert q == p;
    }
    if Classify(disk, p, followLink).Directory? && depth < MAX_SCAN_DEPTH {
      BelowExactlyWhen(disk, p, disk.list(p), depth, q);
    }
  }

  lemma {:induction false} BelowExactlyWhen(disk: Disk, p: Path, names: seq<string>, depth: nat, q: Path)
    requires depth < MAX_SCAN_DEPTH
    ensures q in FilesBelow(disk, p, names, depth) <==>
      && p < q && q[|p|] in names && |q| - |p| <= MAX_SCAN_DEPTH - depth
      && LeadsToFile(disk, p + [q[|p|]], q[|p| + 1..], false)
    decreases MAX_SCAN_DEPTH - depth, 0, |names|
  {
    if names != [] {
      var last := names[|names| - 1];
      assert names == names[..|names| - 1] + [last];
      ListedExactlyWhen(disk, p + [last], depth + 1, false, q);
      BelowExactlyWhen(disk, p, names[..|names| - 1], depth, q);
      if p < q {
        assert p + [last] <= q <==> q[|p|] == last;
      }
      assert p + [last] <= q ==> p < q && q[|p|] == last;
    }
  }

  /** No file is listed twice. */
  lemma {:induction false} ListedOnce(disk: Disk, p: Path, depth: nat, followLink: bool)
    requires depth <= MAX_SCAN_DEPTH && Tidy(disk)
    ensures Distinct(FilesUnder(disk, p, depth, followLink))
    decreases MAX_SCAN_DEPTH - depth, 1, 0
  {
    if Classify(disk, p, followLink).Directory? && depth < MAX_SCAN_DEPTH {
      BelowOnce(disk, p, disk.list(p), depth);
    }
  }

  lemma {:induction false} BelowOnce(disk: Disk, p: Path, names: seq<string>, depth: nat)
    requires depth < MAX_SCAN_DEPTH && Tidy(disk) && Distinct(names)
    ensures Distinct(FilesBelow(disk, p, names, depth))
    decreases MAX_SCAN_DEPTH - depth, 0, |names|
  {
    if names != [] {
      var last, rest := names[|names| - 1], names[..|names| - 1];
      var here, below := FilesUnder(disk, p + [last], depth + 1, false), FilesBelow(disk, p, rest, depth);
      ListedOnce(disk, p + [last], depth + 1, false);
      BelowOnce(disk, p, rest, depth);
      forall q | q in here ensures q !in below {
        ListedExactlyWhen(disk, p + [last], depth + 1, false, q);
        BelowExactlyWhen(disk, p, rest, depth, q);
      }
      assert forall i :: 0 <= i < |here| ==> here[i] in here;
      assert forall i :: 0 <= i < |below| ==> below[i] in below;
    }
  }

  // --- The walk ---------------------------------------------------------------

  type Item = (Path, nat)

  ghost predicate WithinDepth(work: seq<Item>) {
    forall i :: 0 <= i < |work| ==> work[i].1 <= MAX_SCAN_DEPTH
  }

  /** The files the work list still stands for, its last item first. */
  ghost function Pending(disk: Disk, work: seq<Item>, roots: set<Path>): seq<Path>
    requires WithinDepth(work)
  {
    if work == [] then []
    else
      var (p, depth) := work[|work| - 1];
      FilesUnder(disk, p, depth, depth == 0 && p in roots) + Pending(disk, work[..|work| - 1], roots)
  }

  /** How many items the walk will take up for an entry. */
  ghost function Visits(disk: Disk, p: Path, depth: nat, followLink: bool): (n: nat)
    requires depth <= MAX_SCAN_DEPTH
    ensures n >= 1
    decreases MAX_SCAN_DEPTH - depth, 1, 0
  {
    if Classify(disk, p, followLink).Directory? && depth < MAX_SCAN_DEPTH then
      1 + VisitsBelow(disk, p, disk.list(p), depth)
    else 1
  }

  ghost function VisitsBelow(disk: Disk, p: Path, names: seq<string>, depth: nat): nat
    requires depth < MAX_SCAN_DEPTH
    decreases MAX_SCAN_DEPTH - depth, 0, |names|
  {
    if names == [] then 0
    else
      Visits(disk, p + [names[|names| - 1]], depth + 1, false) + VisitsBelow(disk, p, names[..|names| - 1], depth)
  }

  ghost function VisitsLeft(disk: Disk, work: seq<Item>, roots: set<Path>): nat
    requires WithinDepth(work)
  {
    if work == [] then 0
    else
      var (p, depth) := work[|work| - 1];
      Visits(disk, p, depth, depth == 0 && p in roots) + VisitsLeft(disk, work[..|work| - 1], roots)
  }

  /** Every regular file of the tree under `start`, or `start` itself; nothing outside the two configured trees. */
  method GetPathsInPath(disk: Disk, source: Path, build: Path, start: Path) returns (collected: seq<Path>)
    ensures collected == Scan(disk, source, build, start)
  {
    hide Classify, FilesUnder, FilesBelow, Visits, VisitsBelow;
    var permitted := PermittedRoots(source, build, start);
    if permitted.None? { return []; }
    var roots := permitted.value;
    collected := [];
    var work: seq<Item> := [(start, 0)];
    assert work[..0] == [];
    ghost var all := FilesUnder(disk, start, 0, start in roots);
    while work != []
      invariant WithinDepth(work)
      invariant collected + Pending(disk, work, roots) == all
      decreases VisitsLeft(disk, work, roots)
    {
      var (entry, depth) := work[|work| - 1];
      work := work[..|work| - 1];
      ghost var left := Pending(disk, work, roots);
      var followLink := depth == 0 && entry in roots;
      OneEntry(disk, entry, depth, followLink);
      assert all == collected + (FilesUnder(disk, entry, depth, followLink) + left);
      var kind := Classify(disk, entry, followLink);
      if kind.File? { collected := collected + [entry]; }
      if kind.Directory? && depth < MAX_SCAN_DEPTH {
        work := PushChildren(disk, roots, entry, depth, work);
      }
    }
  }

  /** What taking up one entry stands for. */
  lemma OneEntry(disk: Disk, p: Path, depth: nat, followLink: bool)
    requires depth <= MAX_SCAN_DEPTH
    ensures var kind := Classify(disk, p, followLink);
      if kind.Directory? && depth < MAX_SCAN_DEPTH then
        && FilesUnder(disk, p, depth, followLink) == FilesBelow(disk, p, disk.list(p), depth)
        && Visits(disk, p, depth, followLink) == 1 + VisitsBelow(disk, p, disk.list(p), depth)
      else
        && FilesUnder(disk, p, depth, followLink) == (if kind.File? then [p] else [])
        && Visits(disk, p, depth, followLink) == 1
  {}

  /** Pushes the children of a directory, first listed first. */
  method PushChildren(
      disk: Disk, ghost roots: set<Path>, entry: Path, depth: nat, before: seq<Item>) returns (work: seq<Item>)
    requires depth < MAX_SCAN_DEPTH && WithinDepth(before)
    ensures WithinDepth(work)
    ensures Pending(disk, work, roots) ==
      FilesBelow(disk, entry, disk.list(entry), depth) + Pending(disk, before, roots)
    ensures VisitsLeft(disk, work, roots) ==
      VisitsBelow(disk, entry, disk.list(entry), depth) + VisitsLeft(disk, before, roots)
  {
    hide FilesUnder, Visits;
    var names := disk.list(entry);
    work := before;
    for i := 0 to |names|
      invariant WithinDepth(work)
      invariant Pending(disk, work, roots) == FilesBelow(disk, entry, names[..i], depth) + Pending(disk, before, roots)
      invariant VisitsLeft(disk, work, roots) ==
        VisitsBelow(disk, entry, names[..i], depth) + VisitsLeft(disk, before, roots)
    {
      ghost var was := work;
      work := work + [(entry + [names[i]], depth + 1)];
      assert work[..|work| - 1] == was;
      assert names[..i + 1][..i] == names[..i];
    }
    assert names[..|names|] == names;
  }

  // --- What the caller gets ---------------------------------------------------

  function Scan(disk: Disk, source: Path, build: Path, start: Path): seq<Path> {
    match PermittedRoots(source, build, start)
    case None => []
    case Some(roots) => FilesUnder(disk, start, 0, start in roots)
  }

  /**
    What a scan returns: under a configured tree, exactly the files at most twenty
    levels down that are reached without passing a link, the root itself excepted,
    each once; outside both trees, nothing.
   */
  lemma {:induction false} ScanIsExact(disk: Disk, source: Path, build: Path, start: Path)
    requires Tidy(disk)
    ensures Distinct(Scan(disk, source, build, start))
    ensures forall q :: q in Scan(disk, source, build, start) <==>
      && (source <= start || build <= start) && start <= q && |q| - |start| <= MAX_SCAN_DEPTH
      && LeadsToFile(disk, start, q[|start|..], start == source || (start == build && !(source <= start)))
  {
    var permitted := PermittedRoots(source, build, start);
    if permitted.Some? {
      var follow := start in permitted.value;
      ListedOnce(disk, start, 0, follow);
      forall q ensures q in Scan(disk, source, build, start) <==>
          start <= q && |q| - |start| <= MAX_SCAN_DEPTH && LeadsToFile(disk, start, q[|start|..], follow) {
        ListedExactlyWhen(disk, start, 0, follow, q);
      }
    }
  }

  /** Something stands there, behind the link if it is one. */
  predicate Exists(disk: Disk, p: Path) {
    !disk.at(p).Nothing? && (disk.at(p).Link? ==> !disk.behind(p).Nothing?)
  }

  /** The files of several scans, one scan after another. */
  function AllScans(disk: Disk, source: Path, build: Path, entries: seq<Path>): (r: seq<Path>)
    ensures forall q :: q in r <==> exists i :: 0 <= i < |entries| && q in Scan(disk, source, build, entries[i])
  {
    if entries == [] then []
    else
      var n := |entries| - 1;
      AllScans(disk, source, build, entries[..n]) + Scan(disk, source, build, entries[n])
  }

  /** The distinct files that several scans cover, in first-seen order. */
  method EncodedPathsToFilePaths(disk: Disk, source: Path, build: Path, entries: seq<Path>) returns (files: seq<Path>)
    ensures files == Dedup(AllScans(disk, source, build, entries))
  {
    hide FilesUnder, Scan;
    var all: seq<Path> := [];
    for i := 0 to |entries|
      invariant all == AllScans(disk, source, build, entries[..i])
    {
      assert entries[..i + 1][..i] == entries[..i];
      if Exists(disk, entries[i]) {
        var found := GetPathsInPath(disk, source, build, entries[i]);
        all := all + found;
      } else {
        NothingToScan(disk, source, build, entries[i]);
      }
    }
    assert entries[..|entries|] == entries;
    files := Dedup(all);
  }

  lemma NothingToScan(disk: Disk, source: Path, build: Path, start: Path)
    requires !Exists(disk, start)
    ensures Scan(disk, source, build, start) == []
  {}
}
