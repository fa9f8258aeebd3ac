/** Sequence and option helpers shared by the models. */
module Collections {

  datatype Option<+T> = None | Some(value: T)

  /** The elements of a sequence, as a set. */
  function Elements<T>(xs: seq<T>): (s: set<T>) {
    set x | x in xs
  }

  ghost predicate Distinct<T>(xs: seq<T>) {
    forall i, j :: 0 <= i < j < |xs| ==> xs[i] != xs[j]
  }

  /** `Array.from(new Set(xs))`: the first occurrence of each element, in order. */
  function Dedup<T(==,!new)>(xs: seq<T>): (r: seq<T>)
    ensures Distinct(r)
    ensures forall x :: x in r <==> x in xs
  {
    if xs == [] then []
    else
      var r := Dedup(xs[..|xs| - 1]);
      assert xs == xs[..|xs| - 1] + [xs[|xs| - 1]];
      if xs[|xs| - 1] in r then r else r + [xs[|xs| - 1]]
  }

  /** The elements of `xs` outside `out`, in order. */
  function Without<T(==,!new)>(xs: seq<T>, out: set<T>): (r: seq<T>)
    ensures forall x :: x in r <==> x in xs && x !in out
  {
    if xs == [] then []
    else
      var r := Without(xs[..|xs| - 1], out);
      assert xs == xs[..|xs| - 1] + [xs[|xs| - 1]];
      if xs[|xs| - 1] in out then r else r + [xs[|xs| - 1]]
  }

  /** `indexOf` of an element that occurs. */
  function IndexOf<T(==)>(xs: seq<T>, x: T): (i: nat)
    requires x in xs
    ensures i < |xs| && xs[i] == x
    ensures forall j :: 0 <= j < i ==> xs[j] != x
  {
    if xs[0] == x then 0 else 1 + IndexOf(xs[1..], x)
  }

  /** An element of a list without repetitions occurs once. */
  lemma {:induction false} DistinctCount<T>(xs: seq<T>, x: T)
    requires Distinct(xs)
    ensures multiset(xs)[x] == if x in xs then 1 else 0
  {
    if xs != [] {
      assert xs == [xs[0]] + xs[1..];
      DistinctCount(xs[1..], x);
      if x == xs[0] {
        assert x !in xs[1..];
      }
    }
  }
  /** What comes first in `xs` comes first in what `Dedup` keeps of it. */
  lemma {:induction false} DedupKeepsOrder<T(!new)>(xs: seq<T>, i: nat, j: nat)
    requires i < j < |Dedup(xs)|
    ensures IndexOf(xs, Dedup(xs)[i]) < IndexOf(xs, Dedup(xs)[j])
  {
    var front, last := xs[..|xs| - 1], xs[|xs| - 1];
    assert xs == front + [last];
    IndexOfFront(front, last, Dedup(xs)[i]);
    IndexOfFront(front, last, Dedup(xs)[j]);
    if j < |Dedup(front)| {
      DedupKeepsOrder(front, i, j);
    } else {
      assert Dedup(xs)[i] == Dedup(front)[i] && Dedup(front)[i] in Dedup(front);
    }
  }

  lemma {:induction false} IndexOfFront<T>(front: seq<T>, last: T, x: T)
    requires x in front || x == last
    ensures IndexOf(front + [last], x) == if x in front then IndexOf(front, x) else |front|
  {
    if front != [] {
      assert front == [front[0]] + front[1..];
      assert (front + [last])[1..] == front[1..] + [last];
      if front[0] != x {
        IndexOfFront(front[1..], last, x);
      }
    } else {
      assert front + [last] == [last];
    }
  }

  /** `Without` drops each element of the set and nothing else, wherever it stands. */
  lemma {:induction false} WithoutSplits<T(!new)>(xs: seq<T>, ys: seq<T>, out: set<T>)
    ensures Without(xs + ys, out) == Without(xs, out) + Without(ys, out)
    decreases |ys|
  {
    if ys == [] {
      assert xs + ys == xs;
    } else {
      var front := ys[..|ys| - 1];
      assert (xs + ys)[..|xs + ys| - 1] == xs + front;
      WithoutSplits(xs, front, out);
    }
  }

  lemma WithoutOne<T(!new)>(x: T, out: set<T>)
    ensures Without([x], out) == if x in out then [] else [x]
  {
    assert [x][..0] == [];
  }
}
