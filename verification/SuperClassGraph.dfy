/**
  The `super_class` graph of a schema: every table has at most one parent, and a
  corrupt instance may make the chain loop. Each loop is cut at its least member.
 */
module SuperClassGraph {
  import opened Collections
  import opened StringOrder

  type Name = string

  /** Tables and the parents that are among them. */
  datatype Graph = Graph(nodes: set<Name>, parent: map<Name, Name>)

  predicate Closed(g: Graph) {
    forall n :: n in g.parent ==> n in g.nodes && g.parent[n] in g.nodes
  }

  /** The table `k` generations above `n`. */
  ghost function Up(g: Graph, n: Name, k: nat): Option<Name> {
    if k == 0 then Some(n)
    else
      match Up(g, n, k - 1)
      case None => None
      case Some(m) => if m in g.parent then Some(g.parent[m]) else None
  }

  ghost predicate Reaches(g: Graph, n: Name, m: Name) {
    exists k: nat :: Up(g, n, k) == Some(m)
  }

  ghost predicate OnCycle(g: Graph, n: Name) {
    exists k: nat :: k > 0 && Up(g, n, k) == Some(n)
  }

  ghost predicate Acyclic(g: Graph) {
    forall n :: !OnCycle(g, n)
  }

  /** The least member of the loop it is on. */
  ghost predicate IsCut(g: Graph, n: Name) {
    OnCycle(g, n) && forall m :: Reaches(g, n, m) ==> Leq(n, m)
  }

  /** The parents left after the cuts. */
  function Cut(g: Graph, cuts: set<Name>): Graph {
    Graph(g.nodes, map n | n in g.parent && n !in cuts :: g.parent[n])
  }

  // --- Walking up -------------------------------------------------------------

  lemma {:induction false} UpAdds(g: Graph, n: Name, j: nat, k: nat)
    requires Up(g, n, j).Some?
    ensures Up(g, n, j + k) == Up(g, Up(g, n, j).value, k)
  {
    if k > 0 { UpAdds(g, n, j, k - 1); }
  }

  lemma {:induction false} UpDefinedBelow(g: Graph, n: Name, j: nat, k: nat)
    requires j <= k && Up(g, n, k).Some?
    ensures Up(g, n, j).Some?
  {
    if j < k { UpDefinedBelow(g, n, j, k - 1); }
  }

  lemma UpDefinedEverywhereBelow(g: Graph, n: Name, k: nat)
    requires Up(g, n, k).Some?
    ensures forall j: nat :: j <= k ==> Up(g, n, j).Some?
  {
    forall j: nat | j <= k ensures Up(g, n, j).Some? { UpDefinedBelow(g, n, j, k); }
  }

  lemma {:induction false} UpStaysInside(g: Graph, n: Name, k: nat)
    requires Closed(g) && n in g.nodes && Up(g, n, k).Some?
    ensures Up(g, n, k).value in g.nodes
  {
    if k > 0 { UpStaysInside(g, n, k - 1); }
  }

  lemma ReachesTransitive(g: Graph, a: Name, b: Name, c: Name)
    requires Reaches(g, a, b) && Reaches(g, b, c)
    ensures Reaches(g, a, c)
  {
    var j: nat :| Up(g, a, j) == Some(b);
    var k: nat :| Up(g, b, k) == Some(c);
    UpAdds(g, a, j, k);
  }

  /** On a loop of length `k` every generation repeats one of the first `k`. */
  lemma {:induction false} CyclePeriod(g: Graph, n: Name, k: nat, j: nat) returns (r: nat)
    requires k > 0 && Up(g, n, k) == Some(n)
    ensures r < k && Up(g, n, j).Some? && Up(g, n, j) == Up(g, n, r)
  {
    if j >= k {
      r := CyclePeriod(g, n, k, j - k);
      UpAdds(g, n, k, j - k);
    } else {
      r := j;
      UpDefinedBelow(g, n, j, k);
    }
  }

  /** Whatever a loop member reaches is on the loop and reaches it back. */
  lemma CycleIsClosed(g: Graph, n: Name, m: Name)
    requires OnCycle(g, n) && Reaches(g, n, m)
    ensures Reaches(g, m, n) && OnCycle(g, m)
  {
    var k: nat :| k > 0 && Up(g, n, k) == Some(n);
    var j: nat :| Up(g, n, j) == Some(m);
    var r := CyclePeriod(g, n, k, j);
    UpAdds(g, n, r, k - r);
    assert Up(g, m, k - r) == Some(n);
    UpAdds(g, m, k - r, r);
    assert Up(g, m, k) == Some(m);
  }

  // --- What the cuts do -------------------------------------------------------

  /** Everything the loop through `n` holds, in walking order. */
  ghost function Loop(g: Graph, n: Name, k: nat): (r: seq<Name>)
    requires k > 0 && Up(g, n, k) == Some(n)
    ensures |r| == k
    ensures forall i :: 0 <= i < k ==> Up(g, n, i) == Some(r[i])
  {
    UpDefinedEverywhereBelow(g, n, k);
    seq(k, i requires 0 <= i < k => Up(g, n, i).value)
  }

  /** The least member of a loop is its cut. */
  lemma LeastOfLoopIsCut(g: Graph, n: Name, loop: seq<Name>)
    requires loop != [] && Up(g, n, |loop|) == Some(n)
    requires forall i :: 0 <= i < |loop| ==> Up(g, n, i) == Some(loop[i])
    ensures Sort(loop) != []
    ensures Reaches(g, n, Sort(loop)[0]) && IsCut(g, Sort(loop)[0])
  {
    SortedHeadIsLeast(loop);
    var least := Sort(loop)[0];
    var i :| 0 <= i < |loop| && loop[i] == least;
    assert Up(g, n, i) == Some(least);
    CycleIsClosed(g, n, least);
    forall m | Reaches(g, least, m) ensures Leq(least, m) {
      ReachesTransitive(g, n, least, m);
      var j: nat :| Up(g, n, j) == Some(m);
      var r := CyclePeriod(g, n, |loop|, j);
      assert loop[r] == m;
    }
  }

  /** Every loop has exactly one cut. */
  lemma EveryCycleHasOneCut(g: Graph, n: Name) returns (cut: Name)
    requires OnCycle(g, n)
    ensures Reaches(g, n, cut) && IsCut(g, cut)
    ensures forall m :: Reaches(g, n, m) && IsCut(g, m) ==> m == cut
  {
    var k: nat :| k > 0 && Up(g, n, k) == Some(n);
    LeastOfLoopIsCut(g, n, Loop(g, n, k));
    cut := Sort(Loop(g, n, k))[0];
    forall m | Reaches(g, n, m) && IsCut(g, m) ensures m == cut {
      CycleIsClosed(g, n, m);
      CycleIsClosed(g, n, cut);
      ReachesTransitive(g, m, n, cut);
      ReachesTransitive(g, cut, n, m);
      LeqAntisymmetric(m, cut);
    }
  }

  lemma {:induction false} CutOnlyRemoves(g: Graph, cuts: set<Name>, n: Name, k: nat)
    requires Up(Cut(g, cuts), n, k).Some?
    ensures Up(g, n, k) == Up(Cut(g, cuts), n, k)
  {
    if k > 0 { CutOnlyRemoves(g, cuts, n, k - 1); }
  }

  /** With every loop's least member cut no loop is left. */
  lemma CutsLeaveNoCycle(g: Graph, cuts: set<Name>)
    requires forall n :: IsCut(g, n) ==> n in cuts
    ensures Acyclic(Cut(g, cuts))
  {
    var h := Cut(g, cuts);
    forall n ensures !OnCycle(h, n) {
      if OnCycle(h, n) {
        var k: nat :| k > 0 && Up(h, n, k) == Some(n);
        CutOnlyRemoves(g, cuts, n, k);
        var cut := EveryCycleHasOneCut(g, n);
        var j: nat :| Up(g, n, j) == Some(cut);
        var r := CyclePeriod(h, n, k, j);
        CutOnlyRemoves(g, cuts, n, j);
        r := CyclePeriod(h, n, k, j + 1);
        assert false;
      }
    }
  }

  /** A walk that comes back to its own member `first` has found a loop; its least member is the cut. */
  lemma LoopIsCutAtLeast(g: Graph, start: Name, chain: seq<Name>, first: nat)
    requires first < |chain|
    requires forall k :: 0 <= k < |chain| ==> Up(g, start, k) == Some(chain[k])
    requires Up(g, start, |chain|) == Some(chain[first])
    ensures Sort(chain[first..]) != []
    ensures IsCut(g, Sort(chain[first..])[0]) && Reaches(g, start, Sort(chain[first..])[0])
  {
    hide IsCut, Sort;
    var entry := chain[first];
    var loop := chain[first..];
    var k := |chain| - first;
    UpAdds(g, start, first, k);
    forall i | 0 <= i < k ensures Up(g, entry, i) == Some(loop[i]) {
      UpAdds(g, start, first, i);
    }
    LeastOfLoopIsCut(g, entry, loop);
    ReachesTransitive(g, start, entry, Sort(loop)[0]);
  }

  lemma WalkOutMeansNoCycle(g: Graph, start: Name, length: nat)
    requires Up(g, start, length).None?
    ensures !OnCycle(g, start)
  {
    if OnCycle(g, start) {
      var k: nat :| k > 0 && Up(g, start, k) == Some(start);
      var r := CyclePeriod(g, start, k, length);
      assert false;
    }
  }

  /** A walk begun at a cut table cuts that table. */
  lemma StartIsTheCut(g: Graph, start: Name, least: Name)
    requires Reaches(g, start, least) && IsCut(g, least)
    ensures IsCut(g, start) ==> start == least
  {
    if IsCut(g, start) {
      var cut := EveryCycleHasOneCut(g, start);
      assert Up(g, start, 0) == Some(start);
    }
  }

  // --- The measure ------------------------------------------------------------

  /** The tables `n` reaches: what recursion over parents consumes. */
  ghost function Above(g: Graph, n: Name): set<Name> {
    set m | m in g.nodes && Reaches(g, n, m)
  }

  lemma AboveShrinks(g: Graph, n: Name)
    requires Closed(g) && Acyclic(g) && n in g.parent
    ensures Above(g, g.parent[n]) < Above(g, n)
  {
    var p := g.parent[n];
    assert Up(g, n, 0) == Some(n);
    assert Up(g, n, 1) == Some(p);
    assert n in Above(g, n);
    forall m | m in Above(g, p) ensures m in Above(g, n) {
      ReachesTransitive(g, n, p, m);
    }
    if n in Above(g, p) {
      var k: nat :| Up(g, p, k) == Some(n);
      UpAdds(g, n, 1, k);
      assert OnCycle(g, n);
    }
  }
}
