/** Texts joined with a separator, and what the joined text determines. */
module Joining {

  function Join(parts: seq<string>, separator: char): string {
    if parts == [] then ""
    else if |parts| == 1 then parts[0]
    else parts[0] + [separator] + Join(parts[1..], separator)
  }

  /** Text up to the first separator is determined by the whole. */
  lemma FirstSplit(a: string, b: string, x: string, y: string, c: char)
    requires c !in a && c !in x && a + [c] + b == x + [c] + y
    ensures a == x && b == y
  {
    var whole := a + [c] + b;
    assert whole[|a|] == c && whole[|x|] == c;
    assert forall i :: 0 <= i < |a| ==> whole[i] == a[i];
    assert forall i :: 0 <= i < |x| ==> whole[i] == x[i];
    assert a == whole[..|a|] && x == whole[..|x|];
    assert b == whole[|a| + 1..] && y == whole[|x| + 1..];
  }

  /** Text after the last separator is determined by the whole. */
  lemma LastSplit(a: string, b: string, x: string, y: string, c: char)
    requires c !in b && c !in y && a + [c] + b == x + [c] + y
    ensures a == x && b == y
  {
    var whole := a + [c] + b;
    assert whole[|a|] == c && whole[|x|] == c;
    assert forall i :: |a| < i < |whole| ==> whole[i] == b[i - |a| - 1];
    assert forall i :: |x| < i < |whole| ==> whole[i] == y[i - |x| - 1];
    assert a == whole[..|a|] && x == whole[..|x|];
    assert b == whole[|a| + 1..] && y == whole[|x| + 1..];
  }

  ghost predicate Parts(parts: seq<string>, separator: char) {
    forall i :: 0 <= i < |parts| ==> parts[i] != [] && separator !in parts[i]
  }

  lemma {:induction false} JoinInjective(xs: seq<string>, ys: seq<string>, c: char)
    requires Parts(xs, c) && Parts(ys, c) && Join(xs, c) == Join(ys, c)
    ensures xs == ys
  {
    JoinShows(xs, c);
    JoinShows(ys, c);
    if |xs| > 1 && |ys| > 1 {
      FirstSplit(xs[0], Join(xs[1..], c), ys[0], Join(ys[1..], c), c);
      JoinInjective(xs[1..], ys[1..], c);
      assert xs == [xs[0]] + xs[1..] && ys == [ys[0]] + ys[1..];
    }
  }

  lemma JoinShows(parts: seq<string>, c: char)
    requires Parts(parts, c)
    ensures |parts| > 1 <==> c in Join(parts, c)
    ensures parts == [] <==> Join(parts, c) == []
  {}

  lemma JoinAvoids(parts: seq<string>, separator: char, c: char)
    requires c != separator && forall i :: 0 <= i < |parts| ==> c !in parts[i]
    ensures c !in Join(parts, separator)
  {}
}
