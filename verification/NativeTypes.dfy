/**
  The generated table types: how a column is resolved through the parents of its
  table, and what the emitted interfaces say.
 */
module NativeTypes {
  import opened Collections
  import opened StringOrder
  import opened SuperClassGraph

  /** Dictionary `choice`: none, dropdown with --None--, suggestion, dropdown without --None--. */
  datatype ChoiceMode = NoChoice | WithNone | Suggestion | WithoutNone

  datatype Field = Field(element: string, internalType: string, mandatory: bool, choice: ChoiceMode)

  datatype ChoiceList = ChoiceList(element: string, values: seq<string>)

  datatype Table = Table(
    name: Name,
    superClass: Option<Name>,
    fields: seq<Field>,
    choices: seq<ChoiceList>)

  predicate ValidTable(t: Table) {
    && (forall i, j :: 0 <= i < j < |t.fields| ==> t.fields[i].element != t.fields[j].element)
    && (forall i, j :: 0 <= i < j < |t.choices| ==> t.choices[i].element != t.choices[j].element)
  }

  /** The schema by table name. */
  type ByName = map<Name, Table>

  predicate ValidSchema(byName: ByName) {
    forall n :: n in byName ==> byName[n].name == n && ValidTable(byName[n])
  }

  function GraphOf(byName: ByName): (g: Graph)
    ensures Closed(g)
  {
    Graph(byName.Keys,
      map n | n in byName && byName[n].superClass.Some? && byName[n].superClass.value in byName
        :: byName[n].superClass.value)
  }

  /**
    The tables whose parent is cut: for each table the chain of parents is walked
    until it leaves the schema or repeats, and a repeat cuts the loop at the member
    that sorts first.
   */
  method CycleCuts(tables: seq<Table>, byName: ByName) returns (cuts: set<Name>)
    requires ValidSchema(byName)
    requires forall n :: n in byName <==> exists i :: 0 <= i < |tables| && tables[i].name == n
    ensures forall n :: n in cuts <==> IsCut(GraphOf(byName), n)
  {
    var g := GraphOf(byName);
    cuts := {};
    for i := 0 to |tables|
      invariant forall n :: n in cuts ==> IsCut(g, n)
      invariant forall j :: 0 <= j < i && IsCut(g, tables[j].name) ==> tables[j].name in cuts
    {
      var start := tables[i].name;
      var chain, at := WalkUp(byName, start);
      if at.Some? && at.value in chain {
        var first := IndexOf(chain, at.value);
        LoopIsCutAtLeast(g, start, chain, first);
        var least := Sort(chain[first..])[0];
        cuts := cuts + {least};
        StartIsTheCut(g, start, least);
      } else {
        WalkOutMeansNoCycle(g, start, |chain|);
      }
    }
  }

  /** The chain of parents from `start`, until it leaves the schema or repeats. */
  method WalkUp(byName: ByName, start: Name) returns (chain: seq<Name>, at: Option<Name>)
    requires ValidSchema(byName) && start in byName
    ensures forall k :: 0 <= k < |chain| ==> Up(GraphOf(byName), start, k) == Some(chain[k])
    ensures at.Some? && at.value in chain ==> Up(GraphOf(byName), start, |chain|) == at
    ensures at.None? || at.value !in chain ==> Up(GraphOf(byName), start, |chain|) == None
  {
    hide ValidSchema;
    var g := GraphOf(byName);
    chain, at := [], Some(start);
    while at.Some? && at.value in byName && at.value !in chain
      invariant forall x :: x in chain ==> x in byName
      invariant forall k :: 0 <= k < |chain| ==> Up(g, start, k) == Some(chain[k])
      invariant Up(g, start, |chain|) ==
        if at.Some? && at.value in byName then at else None
      decreases byName.Keys - Elements(chain)
    {
      ghost var before := chain;
      chain := chain + [at.value];
      assert Elements(chain) == Elements(before) + {at.value};
      assert at.value in byName.Keys - Elements(before);
      at := byName[at.value].superClass;
    }
  }
}
