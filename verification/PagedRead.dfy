/** Reading a table in pages and names in chunks. */
module PagedRead {
  /** `chunkArray`: consecutive slices of at most `size`, or everything at once for no size. */
  function Chunks<T>(items: seq<T>, size: int): seq<seq<T>>
    decreases |items|
  {
    if size <= 0 then [items]
    else if items == [] then []
    else if |items| <= size then [items]
    else [items[..size]] + Chunks(items[size..], size)
  }

  function Flatten<T>(chunks: seq<seq<T>>): seq<T> {
    if chunks == [] then [] else chunks[0] + Flatten(chunks[1..])
  }

  /** Nothing is lost, repeated or reordered, and no chunk is empty or longer than asked for. */
  lemma {:induction false} ChunksPartition<T>(items: seq<T>, size: int)
    ensures Flatten(Chunks(items, size)) == items
    ensures size > 0 ==> forall i :: 0 <= i < |Chunks(items, size)| ==> 0 < |Chunks(items, size)[i]| <= size
    decreases |items|
  {
    if size > 0 && |items| > size {
      ChunksPartition(items[size..], size);
      assert items == items[..size] + items[size..];
    } else if size <= 0 || items != [] {
      assert [items][1..] == [];
      assert items + [] == items;
    }
  }

  lemma {:induction false} NextChunk<T>(items: seq<T>, size: int, index: nat)
    requires size > 0 && index < |items|
    ensures var end := if index + size < |items| then index + size else |items|;
      Chunks(items[index..], size) == [items[index..end]] + (if end < |items| then Chunks(items[end..], size) else [])
  {
    var rest := items[index..];
    if index + size < |items| {
      assert rest[..size] == items[index..index + size] && rest[size..] == items[index + size..];
    } else {
      assert rest == items[index..|items|];
    }
  }

  method ChunkArray<T>(items: seq<T>, size: int) returns (chunks: seq<seq<T>>)
    ensures chunks == Chunks(items, size)
  {
    if size <= 0 { return [items]; }
    chunks := [];
    var index := 0;
    assert items[0..] == items;
    while index < |items|
      invariant 0 <= index
      invariant chunks + (if index < |items| then Chunks(items[index..], size) else []) == Chunks(items, size)
      decreases |items| - index
    {
      hide Chunks;
      var end := if index + size < |items| then index + size else |items|;
      NextChunk(items, size, index);
      Regroup(chunks, [items[index..end]], if end < |items| then Chunks(items[end..], size) else []);
      chunks := chunks + [items[index..end]];
      index := index + size;
    }
  }

  /** One page of an ordered result: as many rows as asked for, while the server's own cap allows and they last. */
  function PageAt<Row>(all: seq<Row>, offset: nat, limit: nat, cap: nat): seq<Row> {
    if offset >= |all| then []
    else
      var size := if limit < cap then limit else cap;
      if offset + size < |all| then all[offset..offset + size] else all[offset..]
  }

  /**
    What paging until a short page collects, from page `n` at `offset` on. The server
    sends at most `cap(k)` rows in page k.
   */
  function CollectedFrom<Row>(all: seq<Row>, pageSize: nat, cap: nat -> nat, n: nat, offset: nat): seq<Row>
    requires pageSize > 0 && offset <= |all|
    decreases |all| - offset
  {
    var page := PageAt(all, offset, pageSize, cap(n));
    if |page| < pageSize then page else page + CollectedFrom(all, pageSize, cap, n + 1, offset + pageSize)
  }

  function Collected<Row>(all: seq<Row>, pageSize: nat, cap: nat -> nat): seq<Row>
    requires pageSize > 0
  {
    CollectedFrom(all, pageSize, cap, 0, 0)
  }

  lemma {:induction false} OnePage<Row>(
      all: seq<Row>, pageSize: nat, cap: nat -> nat, n: nat, offset: nat, rows: seq<Row>)
    requires pageSize > 0 && offset <= |all|
    ensures var page := PageAt(all, offset, pageSize, cap(n));
      && |page| <= |all| - offset
      && rows + CollectedFrom(all, pageSize, cap, n, offset) ==
         if |page| < pageSize then rows + page
         else rows + page + CollectedFrom(all, pageSize, cap, n + 1, offset + pageSize)
  {
    var page := PageAt(all, offset, pageSize, cap(n));
    if |page| >= pageSize {
      Regroup(rows, page, CollectedFrom(all, pageSize, cap, n + 1, offset + pageSize));
    }
  }

  lemma Regroup<T>(a: seq<T>, b: seq<T>, c: seq<T>)
    ensures a + (b + c) == a + b + c
  {}

  /** Pages through a query until a page comes back short. */
  method TableAPIGetAllRows<Row>(all: seq<Row>, pageSize: nat, cap: nat -> nat) returns (rows: seq<Row>)
    requires pageSize > 0
    ensures rows == Collected(all, pageSize, cap)
  {
    hide CollectedFrom, PageAt;
    rows := [];
    var offset, n := 0, 0;
    while true
      invariant offset <= |all|
      invariant rows + CollectedFrom(all, pageSize, cap, n, offset) == Collected(all, pageSize, cap)
      decreases |all| - offset
    {
      var page := PageAt(all, offset, pageSize, cap(n));
      OnePage(all, pageSize, cap, n, offset, rows);
      rows := rows + page;
      if |page| < pageSize {
        return rows;
      }
      offset, n := offset + pageSize, n + 1;
    }
  }

  function OffsetOf(k: nat, pageSize: nat): nat {
    k * pageSize
  }

  lemma {:induction false} LaterPage(n: nat, k: nat, pageSize: nat)
    requires n < k
    ensures OffsetOf(n + 1, pageSize) == OffsetOf(n, pageSize) + pageSize <= OffsetOf(k, pageSize)
    decreases k - n
  {
    assert (n + 1) * pageSize == n * pageSize + pageSize;
    if n + 1 < k {
      LaterPage(n, k - 1, pageSize);
      assert k * pageSize == (k - 1) * pageSize + pageSize;
    }
  }

  /** Page `k` brings a full page of rows, or all that are left from there on. */
  predicate InFull<Row>(all: seq<Row>, pageSize: nat, cap: nat -> nat, k: nat) {
    var offset := OffsetOf(k, pageSize);
    offset < |all| ==> pageSize <= cap(k) || |all| - offset <= cap(k)
  }

  lemma {:induction false} CompleteFrom<Row>(all: seq<Row>, pageSize: nat, cap: nat -> nat, n: nat)
    requires pageSize > 0 && OffsetOf(n, pageSize) <= |all|
    ensures var offset := OffsetOf(n, pageSize);
      && CollectedFrom(all, pageSize, cap, n, offset) <= all[offset..]
      && (CollectedFrom(all, pageSize, cap, n, offset) == all[offset..] <==>
            forall k :: k >= n ==> InFull(all, pageSize, cap, k))
    decreases |all| - OffsetOf(n, pageSize)
  {
    hide OffsetOf, InFull, PageAt;
    var offset := OffsetOf(n, pageSize);
    var page := PageAt(all, offset, pageSize, cap(n));
    LaterPage(n, n + 1, pageSize);
    PageIs(all, pageSize, cap, n);
    if |page| == pageSize {
      CompleteFrom(all, pageSize, cap, n + 1);
      PageAndRest(all, offset, pageSize, CollectedFrom(all, pageSize, cap, n + 1, offset + pageSize));
    } else {
      LastPages(all, pageSize, cap, n);
    }
  }

  /** What the page at hand is, and whether it is in full. */
  lemma {:induction false} PageIs<Row>(all: seq<Row>, pageSize: nat, cap: nat -> nat, n: nat)
    requires pageSize > 0 && OffsetOf(n, pageSize) <= |all|
    ensures var offset := OffsetOf(n, pageSize);
      var page := PageAt(all, offset, pageSize, cap(n));
      && page <= all[offset..] && |page| <= pageSize
      && (|page| == pageSize ==> page == all[offset..offset + pageSize])
      && (InFull(all, pageSize, cap, n) <==> |page| == pageSize || page == all[offset..])
  {
    hide OffsetOf;
  }

  lemma {:induction false} PageAndRest<Row>(all: seq<Row>, offset: nat, pageSize: nat, rest: seq<Row>)
    requires offset + pageSize <= |all| && rest <= all[offset + pageSize..]
    ensures all[offset..offset + pageSize] + rest <= all[offset..]
    ensures all[offset..offset + pageSize] + rest == all[offset..] <==> rest == all[offset + pageSize..]
  {
    assert all[offset..] == all[offset..offset + pageSize] + all[offset + pageSize..];
    assert (all[offset..offset + pageSize] + rest)[pageSize..] == rest;
  }

  /** After a page that is not a full one there is nothing left exactly when it brought the rest. */
  lemma {:induction false} LastPages<Row>(all: seq<Row>, pageSize: nat, cap: nat -> nat, n: nat)
    requires pageSize > 0 && OffsetOf(n, pageSize) <= |all|
    requires |PageAt(all, OffsetOf(n, pageSize), pageSize, cap(n))| < pageSize
    ensures (forall k :: k >= n ==> InFull(all, pageSize, cap, k)) <==> InFull(all, pageSize, cap, n)
  {
    hide OffsetOf;
    if InFull(all, pageSize, cap, n) {
      forall k | k > n ensures InFull(all, pageSize, cap, k) {
        LaterPage(n, k, pageSize);
      }
    }
  }

  /** Every row is read, once and in order, exactly when no page before the last comes back short. */
  lemma {:induction false} CompleteExactlyWhenInFull<Row>(all: seq<Row>, pageSize: nat, cap: nat -> nat)
    requires pageSize > 0
    ensures Collected(all, pageSize, cap) <= all
    ensures Collected(all, pageSize, cap) == all <==> forall k :: InFull(all, pageSize, cap, k)
  {
    assert OffsetOf(0, pageSize) == 0 && all[0..] == all;
    CompleteFrom(all, pageSize, cap, 0);
    hide CollectedFrom, InFull;
    assert (forall k :: k >= 0 ==> InFull(all, pageSize, cap, k)) <==> forall k :: InFull(all, pageSize, cap, k);
  }

  /** A short page loses every row after it, though the server would go on: of three rows, one is read. */
  lemma ShortPageLosesTheRest(cap: nat -> nat)
    requires cap(0) == 1 && forall k :: k > 0 ==> cap(k) == 2
    ensures Collected(["a", "b", "c"], 2, cap) == ["a"]
  {}
}
