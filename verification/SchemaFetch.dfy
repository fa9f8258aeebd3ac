/** Reading the schema: paged reads of one query, chunked reads by name, and the ancestor walk. */
module SchemaFetch {
  import opened Collections
  import opened SuperClassGraph
  import opened InterfaceNames
  import opened StringOrder

  const MAX_PAGES: nat := 10000

  /** One page of the Table API; None stands for an answer that is not its JSON. */
  datatype Page<+Row> = Page(rows: seq<Row>, total: Option<nat>)

  datatype Read<+T> = Done(value: T) | NotApi | TooManyPages

  /**
    The server answers any request for the query whose full ordered result is `all`:
    a page is a run of rows from the offset, at least `least` of them while that many
    remain and never more than the page size; a stated total is the true one.
   */
  ghost predicate Serves<Row(!new)>(
      all: seq<Row>, pageSize: nat, least: nat, serve: (nat, nat) -> Option<Page<Row>>)
  {
    forall page: nat, offset: nat :: offset <= |all| && serve(page, offset).Some? ==>
      var answer := serve(page, offset).value;
      && answer.rows <= all[offset..]
      && |answer.rows| <= pageSize
      && (|answer.rows| >= least || |answer.rows| == |all| - offset)
      && (answer.total.Some? ==> answer.total.value == |all|)
  }

  /** Pages through one query until its total is reached or a page comes back empty. */
  method ReadAll<Row(!new)>(
      serve: (nat, nat) -> Option<Page<Row>>, ghost all: seq<Row>, ghost pageSize: nat, ghost least: nat)
    returns (r: Read<seq<Row>>)
    requires least >= 1 && Serves(all, pageSize, least, serve)
    ensures r.Done? ==> r.value == all
    ensures r.NotApi? ==> exists page: nat, offset: nat :: serve(page, offset).None?
    ensures r.TooManyPages? ==> |all| > (MAX_PAGES - 1) * least
    ensures |all| > MAX_PAGES * pageSize ==> !r.Done?
  {
    var rows: seq<Row> := [];
    for page := 0 to MAX_PAGES
      invariant rows <= all
      invariant page > 0 ==> |rows| > (page - 1) * least
      invariant rows == all || |rows| >= page * least
      invariant |rows| <= page * pageSize
    {
      var answer := serve(page, |rows|);
      if answer.None? { return NotApi; }
      var result := answer.value.rows;
      TakesRun(all, rows, result);
      NextMultiple(page, least);
      NextMultiple(page, pageSize);
      rows := rows + result;
      var total := answer.value.total;
      if |result| == 0 || (total.Some? && |rows| >= total.value) {
        MultipleMonotone(page + 1, MAX_PAGES, pageSize);
        return Done(rows);
      }
    }
    r := TooManyPages;
  }

  lemma TakesRun<Row>(all: seq<Row>, rows: seq<Row>, result: seq<Row>)
    requires rows <= all && result <= all[|rows|..]
    ensures rows + result <= all
  {}

  lemma NextMultiple(n: nat, k: nat)
    ensures (n + 1) * k == n * k + k
  {}

  lemma MultipleMonotone(a: nat, b: nat, k: nat)
    requires a <= b
    ensures a * k <= b * k
  {}

  // --- Reads by name ----------------------------------------------------------

  /** A `sys_db_object` row: a table and the table it extends. */
  datatype TableRow = TableRow(name: Name, superClass: Option<Name>)

  ghost predicate UniqueNames(db: seq<TableRow>) {
    forall i, j :: 0 <= i < j < |db| ==> db[i].name != db[j].name
  }

  /** The rows a `nameIN` query selects, in the stable order of the table. */
  function Matching(db: seq<TableRow>, names: seq<Name>): (r: seq<TableRow>)
    ensures forall row :: row in r <==> row in db && row.name in names
  {
    if db == [] then []
    else
      assert db == [db[0]] + db[1..];
      (if db[0].name in names then [db[0]] else []) + Matching(db[1..], names)
  }

  type Server = seq<Name> -> ((nat, nat) -> Option<Page<TableRow>>)

  /** The server pages every `nameIN` query over `db`, and always answers. */
  ghost predicate ServesTables(db: seq<TableRow>, pageSize: nat, least: nat, server: Server) {
    forall names: seq<Name> :: Serves(Matching(db, names), pageSize, least, server(names))
  }

  /** The rows of the named tables, chunk after chunk, each chunk's in the order of the table. */
  function ByChunks(db: seq<TableRow>, names: seq<Name>, size: nat): (r: seq<TableRow>)
    requires size >= 1
    ensures forall row :: row in r <==> row in db && row.name in names
    decreases |names|
  {
    if names == [] then []
    else
      var end := if size < |names| then size else |names|;
      assert names == names[..end] + names[end..];
      Matching(db, names[..end]) + ByChunks(db, names[end..], size)
  }

  lemma {:induction false} MatchingOnce(db: seq<TableRow>, names: seq<Name>)
    requires UniqueNames(db)
    ensures Distinct(Matching(db, names))
  {
    if db != [] {
      MatchingOnce(db[1..], names);
      assert db[0] !in db[1..];
    }
  }

  /** Names asked once bring each of their rows once. */
  lemma {:induction false} RowsComeOnce(db: seq<TableRow>, names: seq<Name>, size: nat)
    requires size >= 1 && UniqueNames(db) && Distinct(names)
    ensures Distinct(ByChunks(db, names, size))
    decreases |names|
  {
    hide Matching, UniqueNames;
    if names != [] {
      var end := if size < |names| then size else |names|;
      var first, rest := Matching(db, names[..end]), ByChunks(db, names[end..], size);
      MatchingOnce(db, names[..end]);
      RowsComeOnce(db, names[end..], size);
      forall row | row in first ensures row !in rest {
        assert row.name in names[..end];
      }
      assert forall i :: 0 <= i < |first| ==> first[i] in first;
      assert forall i :: 0 <= i < |rest| ==> rest[i] in rest;
    }
  }

  /** The rows of the named tables, read in chunks of names. */
  method ReadByNames(
      server: Server, names: seq<Name>, chunkSize: nat, ghost db: seq<TableRow>, ghost pageSize: nat, ghost least: nat)
    returns (r: Read<seq<TableRow>>)
    requires chunkSize >= 1 && least >= 1 && ServesTables(db, pageSize, least, server)
    ensures r.Done? ==> r.value == ByChunks(db, names, chunkSize)
  {
    hide Serves, Matching;
    var rows: seq<TableRow> := [];
    var i := 0;
    while i < |names|
      invariant 0 <= i <= |names|
      invariant rows + ByChunks(db, names[i..], chunkSize) == ByChunks(db, names, chunkSize)
      decreases |names| - i
    {
      var end := if i + chunkSize < |names| then i + chunkSize else |names|;
      var chunk := names[i..end];
      var page := ReadAll(server(chunk), Matching(db, chunk), pageSize, least);
      if page.NotApi? { return NotApi; }
      if page.TooManyPages? { return TooManyPages; }
      assert chunk == names[i..][..end - i] && names[end..] == names[i..][end - i..];
      rows := rows + page.value;
      i := end;
    }
    r := Done(rows);
  }

  // --- The ancestor walk ------------------------------------------------------

  /** A name that may be sent in a query. */
  predicate Readable(name: Name) {
    name != [] && forall i :: 0 <= i < |name| ==> IsNameChar(name[i])
  }

  lemma ReadableExactlyWhen(name: Name)
    ensures Readable(name) <==> name != "" && forall c :: c in name ==>
      'a' <= c <= 'z' || 'A' <= c <= 'Z' || '0' <= c <= '9' || c == '_' || c == '$'
  {
    assert forall i :: 0 <= i < |name| ==> name[i] in name;
  }

  ghost predicate IsRow(db: seq<TableRow>, name: Name) {
    exists row :: row in db && row.name == name
  }

  ghost function RowOf(db: seq<TableRow>, name: Name): (row: TableRow)
    requires IsRow(db, name)
    ensures row in db && row.name == name
  {
    var row :| row in db && row.name == name;
    row
  }

  /** What the instance lets a reader climb: each table to its readable parent. */
  ghost function Climb(db: seq<TableRow>): (g: Graph)
  {
    var nodes := set row | row in db :: row.name;
    Graph(nodes,
      map n | n in nodes && RowOf(db, n).superClass.Some? && Readable(RowOf(db, n).superClass.value)
          && IsRow(db, RowOf(db, n).superClass.value)
        :: RowOf(db, n).superClass.value)
  }

  ghost predicate FromSeed(db: seq<TableRow>, seed: set<Name>, name: Name) {
    exists s :: s in seed && Reaches(Climb(db), s, name)
  }

  /** The tables found so far, with the names already asked for. */
  ghost predicate Fetched(db: seq<TableRow>, seeds: set<Name>, asked: set<Name>, tables: map<Name, TableRow>) {
    && seeds <= tables.Keys <= asked
    && (forall n :: n in tables ==> tables[n].name == n && tables[n] in db && FromSeed(db, seeds, n))
    && (forall n :: n in asked && IsRow(db, n) && Readable(n) ==> n in tables)
  }

  lemma RowIsUnique(db: seq<TableRow>, row: TableRow)
    requires UniqueNames(db) && row in db
    ensures IsRow(db, row.name) && RowOf(db, row.name) == row
  {}

  /** With no unknown parent left, everything the seed climbs to was found. */
  lemma {:induction false} FetchedIsClosed(
      db: seq<TableRow>, seeds: set<Name>, asked: set<Name>, tables: map<Name, TableRow>, s: Name, k: nat)
    requires UniqueNames(db) && Fetched(db, seeds, asked, tables)
    requires forall n :: n in tables && tables[n].superClass.Some? ==> tables[n].superClass.value in asked
    requires s in tables && Up(Climb(db), s, k).Some?
    ensures Up(Climb(db), s, k).value in tables
  {
    hide RowOf, Readable, FromSeed;
    if k > 0 {
      FetchedIsClosed(db, seeds, asked, tables, s, k - 1);
      var n := Up(Climb(db), s, k - 1).value;
      RowIsUnique(db, tables[n]);
    }
  }

  lemma ParentIsFromSeed(db: seq<TableRow>, seeds: set<Name>, row: TableRow)
    requires UniqueNames(db) && row in db && FromSeed(db, seeds, row.name)
    requires row.superClass.Some? && Readable(row.superClass.value) && IsRow(db, row.superClass.value)
    ensures FromSeed(db, seeds, row.superClass.value)
  {
    RowIsUnique(db, row);
    var g := Climb(db);
    var s :| s in seeds && Reaches(g, s, row.name);
    assert Up(g, row.name, 0) == Some(row.name);
    assert Up(g, row.name, 1) == Some(row.superClass.value);
    ReachesTransitive(g, s, row.name, row.superClass.value);
  }

  /** The parents of the known tables that were never asked for, sorted. */
  method UnknownParents(order: seq<Name>, tables: map<Name, TableRow>, asked: set<Name>) returns (next: seq<Name>)
    requires Elements(order) == tables.Keys
    ensures forall s :: s in next <==>
      s !in asked && exists n :: n in tables && tables[n].superClass == Some(s)
    ensures Sorted(next) && Distinct(next)
  {
    var parents: seq<Name> := [];
    for i := 0 to |order|
      invariant forall s :: s in parents <==>
        s !in asked && exists j :: 0 <= j < i && tables[order[j]].superClass == Some(s)
    {
      assert order[i] in Elements(order);
      var up := tables[order[i]].superClass;
      if up.Some? && up.value !in asked {
        parents := parents + [up.value];
      }
    }
    next := Sort(Dedup(parents));
    SortKeepsElements(Dedup(parents));
    SortKeepsDistinct(Dedup(parents));
    forall s | s !in asked && exists n :: n in tables && tables[n].superClass == Some(s) ensures s in next {
      var n :| n in tables && tables[n].superClass == Some(s);
      assert n in Elements(order);
    }
  }

  /** Adds the rows whose table is not known yet. */
  method AddNew(order: seq<Name>, tables: map<Name, TableRow>, rows: seq<TableRow>)
    returns (order': seq<Name>, tables': map<Name, TableRow>)
    requires Elements(order) == tables.Keys
    ensures Elements(order') == tables'.Keys
    ensures forall n :: n in tables' <==> n in tables || exists row :: row in rows && row.name == n
    ensures forall n :: n in tables ==> tables'[n] == tables[n]
    ensures forall n :: n in tables' && n !in tables ==> tables'[n] in rows && tables'[n].name == n
  {
    order', tables' := order, tables;
    for i := 0 to |rows|
      invariant Elements(order') == tables'.Keys
      invariant forall n :: n in tables' <==> n in tables || exists row :: row in rows[..i] && row.name == n
      invariant forall n :: n in tables ==> tables'[n] == tables[n]
      invariant forall n :: n in tables' && n !in tables ==> tables'[n] in rows && tables'[n].name == n
    {
      assert rows[..i + 1] == rows[..i] + [rows[i]];
      var row := rows[i];
      if row.name !in tables' {
        assert Elements(order' + [row.name]) == Elements(order') + {row.name};
        order' := order' + [row.name];
        tables' := tables'[row.name := row];
      }
    }
    assert rows[..|rows|] == rows;
  }

  function ReadableOnly(names: seq<Name>): (r: seq<Name>)
    ensures forall n :: n in r <==> n in names && Readable(n)
  {
    if names == [] then []
    else
      assert names == [names[0]] + names[1..];
      (if Readable(names[0]) then [names[0]] else []) + ReadableOnly(names[1..])
  }

  ghost function ParentNames(db: seq<TableRow>): set<Name> {
    set row | row in db && row.superClass.Some? :: row.superClass.value
  }

  function NamesOf(rows: seq<TableRow>): set<Name> {
    set row | row in rows :: row.name
  }

  /**
    The ancestor loop: one generation of parents per round, each name asked once,
    until no unknown parent is left. It finds exactly what the seed climbs to.
   */
  method FetchTables(
      server: Server, seed: seq<TableRow>, chunkSize: nat, ghost db: seq<TableRow>, ghost pageSize: nat,
      ghost least: nat)
    returns (r: Read<map<Name, TableRow>>)
    requires chunkSize >= 1 && least >= 1 && ServesTables(db, pageSize, least, server)
    requires UniqueNames(db) && forall row :: row in seed ==> row in db
    ensures r.Done? ==> forall n :: n in r.value <==> FromSeed(db, NamesOf(seed), n)
    ensures r.Done? ==> forall n :: n in r.value ==> r.value[n].name == n && r.value[n] in db
  {
    hide FromSeed, ServesTables, Matching, Readable, ReadableOnly, Climb;
    ghost var seeds := NamesOf(seed);
    var order, tables := AddNew([], map[], seed);
    var asked := tables.Keys;
    SeedIsFromSeed(db, seeds);
    while true
      invariant Fetched(db, seeds, asked, tables) && Elements(order) == tables.Keys
      decreases ParentNames(db) - asked
    {
      var next := UnknownParents(order, tables, asked);
      if next == [] { break; }
      assert next[0] in next;
      ghost var child :| child in tables && tables[child].superClass == Some(next[0]);
      assert tables[child] in db;
      ghost var before := asked;
      asked := asked + Elements(next);
      var rows := ReadByNames(server, ReadableOnly(next), chunkSize, db, pageSize, least);
      if rows.NotApi? { return NotApi; }
      if rows.TooManyPages? { return TooManyPages; }
      var known := tables;
      order, tables := AddNew(order, tables, rows.value);
      RoundKeepsFetched(db, seeds, before, known, next, tables);
      assert next[0] in ParentNames(db) - before;
    }
    EverythingClimbedWasFound(db, seeds, asked, tables);
    r := Done(tables);
  }

  lemma SeedIsFromSeed(db: seq<TableRow>, seeds: set<Name>)
    ensures forall n :: n in seeds ==> FromSeed(db, seeds, n)
  {
    forall n | n in seeds ensures FromSeed(db, seeds, n) {
      assert Up(Climb(db), n, 0) == Some(n);
    }
  }

  lemma RoundKeepsFetched(
      db: seq<TableRow>, seeds: set<Name>, asked: set<Name>, known: map<Name, TableRow>,
      next: seq<Name>, tables: map<Name, TableRow>)
    requires UniqueNames(db) && Fetched(db, seeds, asked, known)
    requires forall s :: s in next ==> exists n :: n in known && known[n].superClass == Some(s)
    requires forall n :: n in tables <==>
      n in known || exists row :: row in db && row.name in next && Readable(row.name) && row.name == n
    requires forall n :: n in known ==> tables[n] == known[n]
    requires forall n :: n in tables && n !in known ==> tables[n] in db && tables[n].name == n
    ensures Fetched(db, seeds, asked + Elements(next), tables)
  {
    hide Readable, FromSeed;
    forall n | n in tables && n !in known ensures FromSeed(db, seeds, n) {
      var child :| child in known && known[child].superClass == Some(n);
      ParentIsFromSeed(db, seeds, known[child]);
    }
  }

  lemma EverythingClimbedWasFound(db: seq<TableRow>, seeds: set<Name>, asked: set<Name>, tables: map<Name, TableRow>)
    requires UniqueNames(db) && Fetched(db, seeds, asked, tables)
    requires forall n :: n in tables && tables[n].superClass.Some? ==> tables[n].superClass.value in asked
    ensures forall n :: n in tables <==> FromSeed(db, seeds, n)
  {
    hide Climb, Up, RowOf, Readable, UniqueNames, IsRow;
    forall n | FromSeed(db, seeds, n) ensures n in tables {
      var s :| s in seeds && Reaches(Climb(db), s, n);
      var k: nat :| Up(Climb(db), s, k) == Some(n);
      FetchedIsClosed(db, seeds, asked, tables, s, k);
    }
  }
}
