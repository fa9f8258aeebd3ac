/** The code-unit order of strings, and sorting by it. */
module StringOrder {
  import opened Collections

  /** Where a character stands in code-unit order: one of two units stands before the last block of one unit. */
  function Weight(c: char): int {
    if '\U{E000}' <= c < '\U{10000}' then c as int + 0x11_0000 else c as int
  }

  predicate Leq(a: string, b: string) {
    a == [] || (b != [] && (Weight(a[0]) < Weight(b[0]) || (a[0] == b[0] && Leq(a[1..], b[1..]))))
  }

  lemma LeqTotal(a: string, b: string)
    ensures Leq(a, b) || Leq(b, a)
  {}

  lemma LeqAntisymmetric(a: string, b: string)
    requires Leq(a, b) && Leq(b, a)
    ensures a == b
  {}

  lemma LeqTransitive(a: string, b: string, c: string)
    requires Leq(a, b) && Leq(b, c)
    ensures Leq(a, c)
  {}

  predicate Sorted(xs: seq<string>) {
    forall i, j :: 0 <= i < j < |xs| ==> Leq(xs[i], xs[j])
  }

  function Insert(x: string, xs: seq<string>): (r: seq<string>)
    requires Sorted(xs)
    ensures Sorted(r)
    ensures multiset(r) == multiset(xs) + multiset{x}
  {
    if xs == [] then [x]
    else if Leq(x, xs[0]) then
      InsertFront(x, xs);
      [x] + xs
    else
      var rest := Insert(x, xs[1..]);
      InsertLater(x, xs, rest);
      [xs[0]] + rest
  }

  lemma InsertFront(x: string, xs: seq<string>)
    requires xs != [] && Sorted(xs) && Leq(x, xs[0])
    ensures Sorted([x] + xs)
  {
    forall j | 0 <= j < |xs| ensures Leq(x, xs[j]) {
      if j > 0 { LeqTransitive(x, xs[0], xs[j]); }
    }
  }

  lemma InsertLater(x: string, xs: seq<string>, rest: seq<string>)
    requires xs != [] && Sorted(xs) && !Leq(x, xs[0]) && Sorted(rest)
    requires multiset(rest) == multiset(xs[1..]) + multiset{x}
    ensures Sorted([xs[0]] + rest)
    ensures multiset([xs[0]] + rest) == multiset(xs) + multiset{x}
  {
    LeqTotal(x, xs[0]);
    assert xs == [xs[0]] + xs[1..];
    forall j | 0 <= j < |rest| ensures Leq(xs[0], rest[j]) {
      assert rest[j] in multiset(rest);
      if rest[j] != x { assert rest[j] in xs[1..]; }
    }
  }

  function Sort(xs: seq<string>): (r: seq<string>)
    ensures Sorted(r)
    ensures multiset(r) == multiset(xs)
  {
    if xs == [] then []
    else
      assert xs == [xs[0]] + xs[1..];
      Insert(xs[0], Sort(xs[1..]))
  }

  lemma SortKeepsElements(xs: seq<string>)
    ensures |Sort(xs)| == |xs|
    ensures forall x :: x in Sort(xs) <==> x in xs
  {
    assert |multiset(Sort(xs))| == |multiset(xs)|;
    forall x ensures x in Sort(xs) <==> x in xs {
      assert x in multiset(Sort(xs)) <==> x in multiset(xs);
    }
  }

  /** A nonempty list has a least element, and sorting puts it first. */
  lemma SortedHeadIsLeast(xs: seq<string>)
    requires xs != []
    ensures Sort(xs) != [] && Sort(xs)[0] in xs
    ensures forall x :: x in xs ==> Leq(Sort(xs)[0], x)
  {
    SortKeepsElements(xs);
    var s := Sort(xs);
    assert s[0] in s;
    forall x | x in xs ensures Leq(s[0], x) {
      assert x in s;
      var i :| 0 <= i < |s| && s[i] == x;
      if i == 0 { LeqTotal(x, x); }
    }
  }

  /** Sorting forgets the order it was given and nothing else. */
  lemma {:induction false} SortIsCanonical(xs: seq<string>, ys: seq<string>)
    ensures Sort(xs) == Sort(ys) <==> multiset(xs) == multiset(ys)
  {
    if multiset(xs) == multiset(ys) {
      SortedIsUnique(Sort(xs), Sort(ys));
    }
  }

  lemma {:induction false} SortedIsUnique(a: seq<string>, b: seq<string>)
    requires Sorted(a) && Sorted(b) && multiset(a) == multiset(b)
    ensures a == b
  {
    hide Leq;
    if a == [] {
      assert |multiset(b)| == 0;
    } else {
      assert |multiset(b)| == |multiset(a)|;
      HeadIsLeast(a, b);
      HeadIsLeast(b, a);
      LeqAntisymmetric(a[0], b[0]);
      TailMultiset(a);
      TailMultiset(b);
      SortedIsUnique(a[1..], b[1..]);
      assert a == [a[0]] + a[1..] && b == [b[0]] + b[1..];
    }
  }

  lemma TailMultiset(a: seq<string>)
    requires a != []
    ensures multiset(a[1..]) == multiset(a) - multiset{a[0]}
  {
    assert a == [a[0]] + a[1..];
  }

  lemma HeadIsLeast(a: seq<string>, b: seq<string>)
    requires Sorted(a) && a != [] && b != [] && multiset(a) == multiset(b)
    ensures Leq(a[0], b[0])
  {
    assert b[0] in multiset(a);
    var j :| 0 <= j < |a| && a[j] == b[0];
    if j == 0 {
      LeqTotal(a[0], a[0]);
    }
  }

  lemma DistinctMultiset(xs: seq<string>, ys: seq<string>)
    requires Distinct(xs) && Distinct(ys)
    ensures multiset(xs) == multiset(ys) <==> Elements(xs) == Elements(ys)
  {
    if Elements(xs) == Elements(ys) {
      forall x ensures multiset(xs)[x] == multiset(ys)[x] {
        DistinctCount(xs, x);
        DistinctCount(ys, x);
        assert x in xs <==> x in Elements(xs);
        assert x in ys <==> x in Elements(ys);
      }
    } else if multiset(xs) == multiset(ys) {
      forall x ensures x in Elements(xs) <==> x in Elements(ys) {
        assert x in xs <==> x in multiset(xs);
        assert x in ys <==> x in multiset(ys);
      }
      assert false;
    }
  }

  /** A sorted list repeats an element only if the list did. */
  lemma {:induction false} SortKeepsDistinct(xs: seq<string>)
    requires Distinct(xs)
    ensures Distinct(Sort(xs))
  {
    var s := Sort(xs);
    forall i, j | 0 <= i < j < |s| ensures s[i] != s[j] {
      DistinctCount(xs, s[i]);
      if s[i] == s[j] {
        TwiceInMultiset(s, i, j);
      }
    }
  }

  lemma {:induction false} TwiceInMultiset(s: seq<string>, i: nat, j: nat)
    requires i < j < |s| && s[i] == s[j]
    ensures multiset(s)[s[i]] >= 2
  {
    assert s == s[..j] + s[j..];
    assert s[..j][i] == s[i] && s[j..][0] == s[i];
    assert s[i] in multiset(s[..j]) && s[i] in multiset(s[j..]);
  }

  predicate IsLeast(k: string, keys: set<string>) {
    k in keys && forall x :: x in keys ==> Leq(k, x)
  }

  lemma {:induction false} LeastKey(keys: set<string>) returns (k: string)
    requires keys != {}
    ensures IsLeast(k, keys)
  {
    var some :| some in keys;
    if keys == {some} {
      k := some;
      LeqTotal(some, some);
    } else {
      var rest := LeastKey(keys - {some});
      LeqTotal(some, rest);
      LeqTotal(some, some);
      k := if Leq(some, rest) then some else rest;
      forall x | x in keys ensures Leq(k, x) {
        if x != some {
          LeqTransitive(k, rest, x);
        }
      }
    }
  }

  lemma {:induction false} LeastIsUnique(keys: set<string>)
    ensures forall a, b :: IsLeast(a, keys) && IsLeast(b, keys) ==> a == b
  {
    forall a, b | IsLeast(a, keys) && IsLeast(b, keys) ensures a == b {
      LeqAntisymmetric(a, b);
    }
  }

  /** A set of names in code-unit order. */
  function SortedKeys(keys: set<string>): (r: seq<string>)
    ensures forall x :: x in r <==> x in keys
    ensures |r| == |keys|
  {
    if keys == {} then []
    else
      assert exists k :: IsLeast(k, keys) by {
        var least := LeastKey(keys);
      }
      LeastIsUnique(keys);
      var k :| IsLeast(k, keys);
      [k] + SortedKeys(keys - {k})
  }

  lemma {:induction false} SortedKeysSorted(keys: set<string>)
    ensures Sorted(SortedKeys(keys)) && Distinct(SortedKeys(keys))
  {
    if keys != {} {
      var r := SortedKeys(keys);
      var k := r[0];
      SortedKeysSorted(keys - {k});
      assert r[1..] == SortedKeys(keys - {k});
      assert r == [k] + r[1..];
      assert k in r;
    }
  }

  /** Sorting the keys of an object gives the same list whatever order they came in. */
  lemma {:induction false} SortIsSortedKeys(xs: seq<string>)
    requires Distinct(xs)
    ensures Sort(xs) == SortedKeys(Elements(xs))
  {
    var r := SortedKeys(Elements(xs));
    SortedKeysSorted(Elements(xs));
    assert Elements(r) == Elements(xs);
    DistinctMultiset(xs, r);
    SortedIsUnique(Sort(xs), r);
  }

  // --- The order is that of code units ----------------------------------------

  /** The code units of a character in UTF-16. */
  function Units(c: char): (r: seq<int>)
    ensures r != []
  {
    var n := c as int;
    if n < 0x1_0000 then [n] else [0xD800 + (n - 0x1_0000) / 0x400, 0xDC00 + (n - 0x1_0000) % 0x400]
  }

  function CodeUnits(s: string): seq<int> {
    if s == [] then [] else Units(s[0]) + CodeUnits(s[1..])
  }

  /** One text goes on where the other ends, or is the smaller where they first differ. */
  ghost predicate Precedes(x: seq<int>, y: seq<int>) {
    x <= y || exists k :: 0 <= k < |x| && k < |y| && x[..k] == y[..k] && x[k] < y[k]
  }

  /** `Leq` compares texts by their code units. */
  lemma {:induction false} LeqByCodeUnits(a: string, b: string)
    ensures Leq(a, b) <==> Precedes(CodeUnits(a), CodeUnits(b))
  {
    hide Units, Weight, Precedes;
    if a == [] || b == [] {
      NothingPrecedes(CodeUnits(a));
      NothingPrecedes(CodeUnits(b));
    } else if a[0] == b[0] {
      LeqByCodeUnits(a[1..], b[1..]);
      PrecedesBehind(Units(a[0]), CodeUnits(a[1..]), CodeUnits(b[1..]));
    } else {
      UnitsDiffer(a[0], b[0], CodeUnits(a[1..]), CodeUnits(b[1..]));
    }
  }

  lemma NothingPrecedes(x: seq<int>)
    ensures Precedes([], x) && (Precedes(x, []) <==> x == [])
  {}

  lemma PrecedesBehind(front: seq<int>, x: seq<int>, y: seq<int>)
    ensures Precedes(front + x, front + y) <==> Precedes(x, y)
  {
    var n := |front|;
    if x <= y {
      assert front + x <= front + y;
    } else if k :| 0 <= k < |x| && k < |y| && x[..k] == y[..k] && x[k] < y[k] {
      assert (front + x)[..n + k] == front + x[..k] && (front + y)[..n + k] == front + y[..k];
      assert (front + x)[n + k] < (front + y)[n + k];
    }
    var p, q := front + x, front + y;
    if p <= q {
      assert x == p[n..] && y == q[n..];
      assert x <= y;
    } else if k :| 0 <= k < |p| && k < |q| && p[..k] == q[..k] && p[k] < q[k] {
      assert k >= n;
      assert x[..k - n] == p[..k][n..] && y[..k - n] == q[..k][n..];
      assert x[k - n] < y[k - n];
    }
  }

  lemma FirstDiffer(k: nat, x: seq<int>, y: seq<int>)
    requires k < |x| && k < |y| && x[..k] == y[..k] && x[k] != y[k]
    ensures Precedes(x, y) <==> x[k] < y[k]
  {
    forall i | 0 <= i < k ensures x[i] == y[i] {
      assert x[..k][i] == y[..k][i];
    }
    if j :| 0 <= j < |x| && j < |y| && x[..j] == y[..j] && x[j] < y[j] {
      forall i | 0 <= i < j ensures x[i] == y[i] {
        assert x[..j][i] == y[..j][i];
      }
      assert j == k;
    }
  }

  lemma UnitsDiffer(c: char, d: char, x: seq<int>, y: seq<int>)
    requires c != d
    ensures Precedes(Units(c) + x, Units(d) + y) <==> Weight(c) < Weight(d)
  {
    hide Precedes;
    var p, q := Units(c) + x, Units(d) + y;
    if Units(c)[0] != Units(d)[0] {
      FirstDiffer(0, p, q);
    } else {
      assert p[..1] == q[..1];
      FirstDiffer(1, p, q);
    }
  }
}
