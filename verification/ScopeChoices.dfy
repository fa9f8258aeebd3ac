/** The choices of a scope, found through the tables and columns that the scope owns. */
module ScopeChoices {
  import opened Collections
  import opened PathNames
  import opened StringOrder
  import opened PagedRead

  const NAME_CHUNK_SIZE := 50
  const CHOICE_PAGE_SIZE := 500

  datatype ChoiceRow = ChoiceRow(sysId: string, name: string, element: string)

  /** A row of an ownership table: a table's name, or a column of a table. */
  datatype OwnedName = OwnedName(name: string, element: string)

  /** Names with letters, digits and underscores only can stand in a query. */
  predicate IsQueryIdentifier(s: string) {
    IsTableName(s)
  }

  datatype Query = Tables(names: seq<string>) | Columns(table: string, elements: seq<string>)

  predicate Selects(q: Query, row: ChoiceRow) {
    match q
    case Tables(names) => row.name in names
    case Columns(table, elements) => row.name == table && row.element in elements
  }

  /** What the ownership tables say, each as read or refused. */
  datatype Ownership = Ownership(
    tables: Option<seq<OwnedName>>, columns: Option<seq<OwnedName>>, choiceSets: Option<seq<OwnedName>>)

  function Answered(rows: Option<seq<OwnedName>>): seq<OwnedName> {
    if rows.Some? then rows.value else []
  }

  /** The row's table belongs to the scope. */
  predicate OwnsTable(o: Ownership, name: string) {
    IsQueryIdentifier(name) && exists r :: r in Answered(o.tables) && r.name == name
  }

  /** The row's column does, or its choice list. */
  predicate OwnsColumn(o: Ownership, name: string, element: string) {
    IsQueryIdentifier(name) && IsQueryIdentifier(element)
    && OwnedName(name, element) in Answered(o.columns) + Answered(o.choiceSets)
  }

  predicate Owns(o: Ownership, row: ChoiceRow) {
    OwnsTable(o, row.name) || OwnsColumn(o, row.name, row.element)
  }

  // --- The queries ------------------------------------------------------------

  function TableQueries(chunks: seq<seq<string>>): seq<Query> {
    if chunks == [] then [] else [Tables(chunks[0])] + TableQueries(chunks[1..])
  }

  function ColumnQueries(table: string, chunks: seq<seq<string>>): seq<Query> {
    if chunks == [] then [] else [Columns(table, chunks[0])] + ColumnQueries(table, chunks[1..])
  }

  /** The queries for the columns of these tables, table by table. */
  function AllColumnQueries(tables: seq<string>, columns: map<string, set<string>>): seq<Query>
    requires forall t :: t in tables ==> t in columns
  {
    if tables == [] then []
    else
      var n := |tables| - 1;
      AllColumnQueries(tables[..n], columns)
      + ColumnQueries(tables[n], Chunks(SortedKeys(columns[tables[n]]), NAME_CHUNK_SIZE))
  }

  function Queries(tables: set<string>, columns: map<string, set<string>>): seq<Query> {
    TableQueries(Chunks(SortedKeys(tables), NAME_CHUNK_SIZE)) + AllColumnQueries(SortedKeys(columns.Keys), columns)
  }

  /** How many of the queries select a row. */
  function Hits(queries: seq<Query>, row: ChoiceRow): nat {
    if queries == [] then 0 else (if Selects(queries[0], row) then 1 else 0) + Hits(queries[1..], row)
  }

  lemma {:induction false} HitsConcat(a: seq<Query>, b: seq<Query>, row: ChoiceRow)
    ensures Hits(a + b, row) == Hits(a, row) + Hits(b, row)
    decreases |a|
  {
    if a == [] {
      assert a + b == b;
    } else {
      assert (a + b)[1..] == a[1..] + b;
      HitsConcat(a[1..], b, row);
    }
  }

  /** Names split into chunks are each in exactly one. */
  lemma {:induction false} TableHits(chunks: seq<seq<string>>, row: ChoiceRow)
    requires Distinct(Flatten(chunks))
    ensures Hits(TableQueries(chunks), row) == if row.name in Flatten(chunks) then 1 else 0
    decreases |chunks|
  {
    if chunks != [] {
      SplitDistinct(chunks[0], Flatten(chunks[1..]));
      TableHits(chunks[1..], row);
      assert TableQueries(chunks)[1..] == TableQueries(chunks[1..]);
    }
  }

  lemma {:induction false} ColumnHits(table: string, chunks: seq<seq<string>>, row: ChoiceRow)
    requires Distinct(Flatten(chunks))
    ensures Hits(ColumnQueries(table, chunks), row) ==
      if row.name == table && row.element in Flatten(chunks) then 1 else 0
    decreases |chunks|
  {
    if chunks != [] {
      SplitDistinct(chunks[0], Flatten(chunks[1..]));
      ColumnHits(table, chunks[1..], row);
      assert ColumnQueries(table, chunks)[1..] == ColumnQueries(table, chunks[1..]);
    }
  }

  lemma {:induction false} SplitDistinct(a: seq<string>, b: seq<string>)
    requires Distinct(a + b)
    ensures Distinct(a) && Distinct(b) && forall x :: x in a ==> x !in b
  {
    var all := a + b;
    forall i, j | 0 <= i < j < |a| ensures a[i] != a[j] {
      assert all[i] == a[i] && all[j] == a[j];
    }
    forall i, j | 0 <= i < j < |b| ensures b[i] != b[j] {
      assert all[|a| + i] == b[i] && all[|a| + j] == b[j];
    }
    forall i, j | 0 <= i < |a| && 0 <= j < |b| ensures a[i] != b[j] {
      assert all[i] == a[i] && all[|a| + j] == b[j];
    }
  }

  lemma {:induction false} AllColumnHits(tables: seq<string>, columns: map<string, set<string>>, row: ChoiceRow)
    requires Distinct(tables) && forall t :: t in tables ==> t in columns
    ensures Hits(AllColumnQueries(tables, columns), row) ==
      if row.name in tables && row.element in columns[row.name] then 1 else 0
  {
    if tables != [] {
      var n := |tables| - 1;
      var t := tables[n];
      assert tables == tables[..n] + [t];
      SplitDistinct(tables[..n], [t]);
      AllColumnHits(tables[..n], columns, row);
      var names := SortedKeys(columns[t]);
      SortedKeysSorted(columns[t]);
      ChunksPartition(names, NAME_CHUNK_SIZE);
      ColumnHits(t, Chunks(names, NAME_CHUNK_SIZE), row);
      HitsConcat(AllColumnQueries(tables[..n], columns), ColumnQueries(t, Chunks(names, NAME_CHUNK_SIZE)), row);
    }
  }

  /** A row is selected by exactly one query when its table is listed, or its column on another table; else by none. */
  lemma {:induction false} SelectedOnce(tables: set<string>, columns: map<string, set<string>>, row: ChoiceRow)
    requires tables !! columns.Keys
    ensures Hits(Queries(tables, columns), row) ==
      if row.name in tables || InColumns(columns, row.name, row.element) then 1 else 0
  {
    hide SortedKeys, Chunks, AllColumnQueries, TableQueries, Selects, Sorted;
    var names := SortedKeys(tables);
    SortedKeysSorted(tables);
    SortedKeysSorted(columns.Keys);
    ChunksPartition(names, NAME_CHUNK_SIZE);
    TableHits(Chunks(names, NAME_CHUNK_SIZE), row);
    AllColumnHits(SortedKeys(columns.Keys), columns, row);
    HitsConcat(TableQueries(Chunks(names, NAME_CHUNK_SIZE)), AllColumnQueries(SortedKeys(columns.Keys), columns), row);
  }

  // --- The rows ---------------------------------------------------------------

  /** The rows a query selects, under the conditions the operator adds, in the table's own order. */
  function Matching(all: seq<ChoiceRow>, q: Query, operator: ChoiceRow -> bool): seq<ChoiceRow> {
    if all == [] then []
    else (if Selects(q, all[0]) && operator(all[0]) then [all[0]] else []) + Matching(all[1..], q, operator)
  }

  lemma {:induction false} MatchingCount(all: seq<ChoiceRow>, q: Query, operator: ChoiceRow -> bool, row: ChoiceRow)
    ensures multiset(Matching(all, q, operator))[row] ==
      if Selects(q, row) && operator(row) then multiset(all)[row] else 0
  {
    if all != [] {
      hide Selects;
      assert all == [all[0]] + all[1..];
      MatchingCount(all[1..], q, operator, row);
    }
  }

  /** What the answered queries return, query after query. */
  function Returned(
      all: seq<ChoiceRow>, queries: seq<Query>, operator: ChoiceRow -> bool, answers: nat -> bool, n: nat)
    : seq<ChoiceRow>
    requires n <= |queries|
  {
    if n == 0 then []
    else
      Returned(all, queries, operator, answers, n - 1)
      + (if answers(n - 1) then Matching(all, queries[n - 1], operator) else [])
  }

  /** How often a row comes back: as often as queries select it, if it is there and the operator's conditions hold. */
  lemma {:induction false} ReturnedCount(
      all: seq<ChoiceRow>, queries: seq<Query>, operator: ChoiceRow -> bool, answers: nat -> bool, n: nat,
      row: ChoiceRow)
    requires n <= |queries| && Distinct(all)
    ensures var count := multiset(Returned(all, queries, operator, answers, n))[row];
      var most := if row in all && operator(row) then Hits(queries[..n], row) else 0;
      count <= most && ((forall i :: 0 <= i < n ==> answers(i)) ==> count == most)
  {
    hide Selects, Matching, Distinct, Hits, Returned;
    if n == 0 {
      NothingReturned(all, queries, operator, answers);
      NoHits(row);
      assert queries[..0] == [];
    } else {
      ReturnedNext(all, queries, operator, answers, n - 1);
      ReturnedCount(all, queries, operator, answers, n - 1, row);
      MatchingCount(all, queries[n - 1], operator, row);
      DistinctCount(all, row);
      assert queries[..n] == queries[..n - 1] + [queries[n - 1]];
      HitsConcat(queries[..n - 1], [queries[n - 1]], row);
      OneHit(queries[n - 1], row);
    }
  }

  lemma NoHits(row: ChoiceRow)
    ensures Hits([], row) == 0
  {}

  lemma OneHit(q: Query, row: ChoiceRow)
    ensures Hits([q], row) == if Selects(q, row) then 1 else 0
  {}

  /** Whether everything that was asked for was answered. */
  ghost predicate AllAnswered(o: Ownership, answers: nat -> bool) {
    o.tables.Some? && o.columns.Some? && o.choiceSets.Some? && forall i :: answers(i)
  }

  // --- The read itself --------------------------------------------------------

  method OwnedTables(rows: seq<OwnedName>) returns (owned: set<string>)
    ensures forall t :: t in owned <==> IsQueryIdentifier(t) && exists r :: r in rows && r.name == t
  {
    hide IsQueryIdentifier;
    owned := {};
    for n := 0 to |rows|
      invariant forall t :: t in owned <==> IsQueryIdentifier(t) && exists r :: r in rows[..n] && r.name == t
    {
      assert rows[..n + 1] == rows[..n] + [rows[n]];
      if IsQueryIdentifier(rows[n].name) {
        owned := owned + {rows[n].name};
      }
    }
    assert rows[..|rows|] == rows;
  }

  predicate InColumns(columns: map<string, set<string>>, table: string, element: string) {
    table in columns && element in columns[table]
  }

  /** The scope's columns on tables it does not define, by table. */
  method OwnedColumns(rows: seq<OwnedName>, tables: set<string>) returns (owned: map<string, set<string>>)
    ensures tables !! owned.Keys
    ensures forall t, c :: t !in tables ==>
      (InColumns(owned, t, c) <==> IsQueryIdentifier(t) && IsQueryIdentifier(c) && OwnedName(t, c) in rows)
  {
    hide IsQueryIdentifier;
    owned := map[];
    for n := 0 to |rows|
      invariant tables !! owned.Keys
      invariant forall t, c :: t !in tables ==>
        (InColumns(owned, t, c) <==> IsQueryIdentifier(t) && IsQueryIdentifier(c) && OwnedName(t, c) in rows[..n])
    {
      var row := rows[n];
      assert rows[..n + 1] == rows[..n] + [row];
      if IsQueryIdentifier(row.name) && IsQueryIdentifier(row.element) && row.name !in tables {
        var columns := if row.name in owned then owned[row.name] else {};
        owned := owned[row.name := columns + {row.element}];
      }
    }
    assert rows[..|rows|] == rows;
  }

  /**
    The choices of a scope. `answers` tells which of the choice reads are answered
    rather than refused; the ownership reads are refused where they are None. A
    refusal is counted, so the caller knows the result to be partial.
   */
  method GetScopeChoiceRows(
      all: seq<ChoiceRow>, o: Ownership, operator: ChoiceRow -> bool, answers: nat -> bool)
    returns (rows: seq<ChoiceRow>, skipped: nat)
    requires Distinct(all)
    ensures forall row :: multiset(rows)[row] <= 1
    ensures forall row :: row in rows ==> row in all && Owns(o, row) && operator(row)
    ensures skipped == 0 ==> forall row :: row in rows <==> row in all && Owns(o, row) && operator(row)
    ensures AllAnswered(o, answers) ==> skipped == 0
    ensures skipped == 0 ==> o.tables.Some? && o.columns.Some? && o.choiceSets.Some?
  {
    hide Returned, Queries, Owns, IsQueryIdentifier, OwnsTable, OwnsColumn;
    var unread := (if o.tables.None? then 1 else 0) + (if o.columns.None? then 1 else 0)
      + (if o.choiceSets.None? then 1 else 0);
    var tables := OwnedTables(Answered(o.tables));
    var columns := OwnedColumns(Answered(o.columns) + Answered(o.choiceSets), tables);
    var queries := Queries(tables, columns);
    OwnershipIs(o, tables, columns);
    var refused;
    rows, refused := RunQueries(all, queries, operator, answers);
    skipped := unread + refused;
    forall row
      ensures multiset(rows)[row] <= 1
      ensures row in rows ==> row in all && Owns(o, row) && operator(row)
      ensures skipped == 0 ==> (row in rows <==> row in all && Owns(o, row) && operator(row))
    {
      RowAttributed(all, o, operator, answers, tables, columns, row);
    }
  }

  lemma OwnershipIs(o: Ownership, tables: set<string>, columns: map<string, set<string>>)
    requires forall t :: t in tables <==> IsQueryIdentifier(t) && exists r :: r in Answered(o.tables) && r.name == t
    requires forall t, c :: t !in tables ==>
      (InColumns(columns, t, c) <==>
        IsQueryIdentifier(t) && IsQueryIdentifier(c) && OwnedName(t, c) in Answered(o.columns) + Answered(o.choiceSets))
    ensures forall t :: t in tables <==> OwnsTable(o, t)
    ensures forall t, c :: t !in tables ==> (InColumns(columns, t, c) <==> OwnsColumn(o, t, c))
  {}

  /** Sends the queries one after another, counting the refused ones. */
  method RunQueries(all: seq<ChoiceRow>, queries: seq<Query>, operator: ChoiceRow -> bool, answers: nat -> bool)
    returns (rows: seq<ChoiceRow>, refused: nat)
    ensures rows == Returned(all, queries, operator, answers, |queries|)
    ensures refused == 0 <==> forall i :: 0 <= i < |queries| ==> answers(i)
  {
    hide Returned, Matching;
    rows, refused := [], 0;
    NothingReturned(all, queries, operator, answers);
    for n := 0 to |queries|
      invariant rows == Returned(all, queries, operator, answers, n)
      invariant refused == 0 <==> forall i :: 0 <= i < n ==> answers(i)
    {
      ReturnedNext(all, queries, operator, answers, n);
      if answers(n) {
        var found := ReadChoices(all, queries[n], operator);
        rows := rows + found;
      } else {
        refused := refused + 1;
      }
    }
  }

  lemma NothingReturned(
      all: seq<ChoiceRow>, queries: seq<Query>, operator: ChoiceRow -> bool, answers: nat -> bool)
    ensures Returned(all, queries, operator, answers, 0) == []
  {}

  lemma ReturnedNext(
      all: seq<ChoiceRow>, queries: seq<Query>, operator: ChoiceRow -> bool, answers: nat -> bool, n: nat)
    requires n < |queries|
    ensures Returned(all, queries, operator, answers, n + 1) == Returned(all, queries, operator, answers, n)
      + (if answers(n) then Matching(all, queries[n], operator) else [])
  {}

  /** One query, in pages a server sends in full. */
  method ReadChoices(all: seq<ChoiceRow>, q: Query, operator: ChoiceRow -> bool) returns (rows: seq<ChoiceRow>)
    ensures rows == Matching(all, q, operator)
  {
    var cap: nat -> nat := _ => CHOICE_PAGE_SIZE;
    rows := TableAPIGetAllRows(Matching(all, q, operator), CHOICE_PAGE_SIZE, cap);
    CompleteExactlyWhenInFull(Matching(all, q, operator), CHOICE_PAGE_SIZE, cap);
  }

  /**
    Each row the queries return belongs to the scope and comes once; each that does is
    returned, when all is answered.
   */
  lemma {:induction false} RowAttributed(
      all: seq<ChoiceRow>, o: Ownership, operator: ChoiceRow -> bool, answers: nat -> bool,
      tables: set<string>, columns: map<string, set<string>>, row: ChoiceRow)
    requires Distinct(all)
    requires forall t :: t in tables <==> OwnsTable(o, t)
    requires tables !! columns.Keys
    requires forall t, c :: t !in tables ==> (InColumns(columns, t, c) <==> OwnsColumn(o, t, c))
    ensures var queries := Queries(tables, columns);
      var rows := Returned(all, queries, operator, answers, |queries|);
      && multiset(rows)[row] <= 1
      && (row in rows ==> row in all && Owns(o, row) && operator(row))
      && ((forall i :: 0 <= i < |queries| ==> answers(i)) ==>
            (row in rows <==> row in all && Owns(o, row) && operator(row)))
  {
    hide Returned, Queries, OwnsTable, OwnsColumn, Hits, Distinct;
    var queries := Queries(tables, columns);
    SelectedOnce(tables, columns, row);
    ReturnedCount(all, queries, operator, answers, |queries|, row);
    assert queries[..|queries|] == queries;
    var rows := Returned(all, queries, operator, answers, |queries|);
    assert row in rows <==> multiset(rows)[row] > 0;
    assert Hits(queries, row) == if Owns(o, row) then 1 else 0;
  }
}
