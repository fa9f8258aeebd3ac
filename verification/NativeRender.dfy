/** The emitted interfaces, and the theorem that they mean what was resolved. */
module NativeRender {
  import opened Collections
  import opened SuperClassGraph
  import opened NativeTypes
  import opened NativeColumns
  import opened InterfaceNames

  /** `interface id extends Omit<base, omitted> { members }`. */
  datatype Interface = Interface(base: Option<string>, omitted: set<string>, members: Columns)

  /** The emitted file: interfaces by id. */
  type Declarations = map<string, Interface>

  predicate Named(p: Plan, ids: map<Name, string>) {
    && ids.Keys == p.byName.Keys
    && forall a, b :: a in ids && b in ids && a != b ==> ids[a] != ids[b]
  }

  function MemberFields(p: Plan, name: Name): seq<Field>
    requires Sound(p) && name in p.byName
  {
    ChoiceOverrides(p, name, Inherited(p, name), p.byName[name].choices) + p.byName[name].fields
  }

  /** The declared columns that the base has under another signature. */
  function Changed(inherited: Columns, members: Columns): set<string> {
    set e | e in members && e in inherited && inherited[e] != members[e]
  }

  /** The interface of one table. */
  function Emit(p: Plan, ids: map<Name, string>, name: Name): Interface
    requires Sound(p) && Named(p, ids) && name in p.byName
  {
    var inherited := Inherited(p, name);
    var members := SetAll(map[], MemberFields(p, name), p.byName[name]);
    Interface(
      if name in p.parents.parent then Some(ids[p.parents.parent[name]]) else None,
      Changed(inherited, members),
      members)
  }

  ghost predicate Emitted(p: Plan, ids: map<Name, string>, file: Declarations)
    requires Sound(p) && Named(p, ids)
  {
    && file.Keys == ids.Values
    && forall name :: name in p.byName ==> file[ids[name]] == Emit(p, ids, name)
  }

  // --- The code that emits ----------------------------------------------------

  ghost predicate CacheSound(p: Plan, cache: map<Name, Columns>)
    requires Sound(p)
  {
    forall n :: n in cache ==> n in p.byName && cache[n] == Resolve(p, n)
  }

  /** `resolve`, with its memo table. */
  method ResolveCached(p: Plan, name: Name, cache: map<Name, Columns>)
    returns (columns: Columns, after: map<Name, Columns>)
    requires Sound(p) && name in p.byName && CacheSound(p, cache)
    ensures columns == Resolve(p, name) && CacheSound(p, after)
    decreases Above(p.parents, name)
  {
    if name in cache { return cache[name], cache; }
    var t := p.byName[name];
    columns, after := map[], cache;
    if name in p.parents.parent {
      AboveShrinks(p.parents, name);
      columns, after := ResolveCached(p, p.parents.parent[name], cache);
    }
    var overrides := CollectOverrides(p, name, columns);
    columns := SetColumns(columns, overrides + t.fields, t);
    after := after[name := columns];
  }

  method CollectOverrides(p: Plan, name: Name, inherited: Columns) returns (overrides: seq<Field>)
    requires Sound(p) && name in p.byName
    ensures overrides == ChoiceOverrides(p, name, inherited, p.byName[name].choices)
  {
    var choices := p.byName[name].choices;
    overrides := [];
    if name !in p.parents.parent { return; }
    var parent := p.parents.parent[name];
    for i := 0 to |choices|
      invariant overrides == ChoiceOverrides(p, name, inherited, choices[..i])
    {
      assert choices[..i + 1][..i] == choices[..i];
      var c := choices[i];
      if OwnField(p.byName[name].fields, c.element).Some? || c.element !in inherited { continue; }
      var field := FieldOf(p, parent, c.element);
      if field.Some? && LiteralUnion(field.value, c.values).Some? {
        overrides := overrides + [field.value];
      }
    }
    assert choices[..|choices|] == choices;
  }

  method SetColumns(columns: Columns, fields: seq<Field>, t: Table) returns (r: Columns)
    ensures r == SetAll(columns, fields, t)
  {
    r := columns;
    for i := 0 to |fields|
      invariant r == SetAll(columns, fields[..i], t)
    {
      assert fields[..i + 1][..i] == fields[..i];
      r := r[fields[i].element := SignatureOf(fields[i], ChoicesFor(t.choices, fields[i].element))];
    }
    assert fields[..|fields|] == fields;
  }

  method EmitTable(p: Plan, ids: map<Name, string>, name: Name, cache: map<Name, Columns>)
    returns (emitted: Interface, after: map<Name, Columns>)
    requires Sound(p) && Named(p, ids) && name in p.byName && CacheSound(p, cache)
    ensures emitted == Emit(p, ids, name) && CacheSound(p, after)
  {
    var t := p.byName[name];
    var inherited: Columns := map[];
    var base := None;
    after := cache;
    if name in p.parents.parent {
      inherited, after := ResolveCached(p, p.parents.parent[name], cache);
      base := Some(ids[p.parents.parent[name]]);
    }
    var overrides := CollectOverrides(p, name, inherited);
    var members := SetColumns(map[], overrides + t.fields, t);
    emitted := Interface(base, Changed(inherited, members), members);
  }

  /** The file holds exactly the interfaces of `tables`. */
  ghost predicate EmittedFor(p: Plan, ids: map<Name, string>, tables: seq<Name>, file: Declarations)
    requires Sound(p) && Named(p, ids)
  {
    && (forall n :: n in tables ==> n in p.byName && ids[n] in file && file[ids[n]] == Emit(p, ids, n))
    && (forall id :: id in file ==> exists n :: n in tables && ids[n] == id)
  }

  lemma EmitOneMore(p: Plan, ids: map<Name, string>, tables: seq<Name>, file: Declarations, name: Name)
    requires Sound(p) && Named(p, ids) && EmittedFor(p, ids, tables, file) && name in p.byName
    ensures EmittedFor(p, ids, tables + [name], file[ids[name] := Emit(p, ids, name)])
  {
    hide Emit, Sound;
    var after := file[ids[name] := Emit(p, ids, name)];
    forall id | id in after ensures exists n :: n in tables + [name] && ids[n] == id {
      if id == ids[name] {
        assert name in tables + [name];
      } else {
        var n :| n in tables && ids[n] == id;
        assert n in tables + [name];
      }
    }
  }

  /** One interface per table, each redeclared column whose signature changed omitted from its parent. */
  method Render(p: Plan, tables: seq<Name>, ids: map<Name, string>) returns (file: Declarations)
    requires Sound(p) && Named(p, ids) && Elements(tables) == p.byName.Keys
    ensures Emitted(p, ids, file)
  {
    file := map[];
    var cache: map<Name, Columns> := map[];
    for i := 0 to |tables|
      invariant CacheSound(p, cache)
      invariant EmittedFor(p, ids, tables[..i], file)
    {
      hide *;
      assert tables[i] in p.byName && tables[..i + 1] == tables[..i] + [tables[i]];
      EmitOneMore(p, ids, tables[..i], file, tables[i]);
      var emitted;
      emitted, cache := EmitTable(p, ids, tables[i], cache);
      file := file[ids[tables[i]] := emitted];
    }
    assert tables[..|tables|] == tables;
    AllEmitted(p, tables, ids, file);
  }

  lemma AllEmitted(p: Plan, tables: seq<Name>, ids: map<Name, string>, file: Declarations)
    requires Sound(p) && Named(p, ids) && Elements(tables) == p.byName.Keys
    requires EmittedFor(p, ids, tables, file)
    ensures Emitted(p, ids, file)
  {
    hide Emit, Sound;
    forall n | n in p.byName ensures n in tables {
      assert n in Elements(tables);
    }
  }

  // --- What the emitted file means --------------------------------------------

  /**
    The members of every interface, as TypeScript reads `extends Omit<...>`: the
    base's members without the omitted ones, then the declared ones.
   */
  ghost predicate Means(file: Declarations, meaning: map<string, Columns>) {
    && meaning.Keys == file.Keys
    && forall id :: id in file ==>
      var i := file[id];
      && (i.base.Some? ==> i.base.value in file)
      && meaning[id] == (if i.base.Some? then meaning[i.base.value] - i.omitted else map[]) + i.members
  }

  /** No member redeclares an inherited one differently, so no interface fails to extend its base. */
  ghost predicate Compiles(file: Declarations, meaning: map<string, Columns>)
    requires Means(file, meaning)
  {
    forall id, e :: id in file && file[id].base.Some? && e in file[id].members
      && e in meaning[file[id].base.value] && e !in file[id].omitted
      ==> file[id].members[e] == meaning[file[id].base.value][e]
  }

  lemma {:induction false} SetAllSplits(columns: Columns, fields: seq<Field>, t: Table)
    ensures SetAll(columns, fields, t) == columns + SetAll(map[], fields, t)
  {
    if fields != [] {
      hide SignatureOf, ChoicesFor;
      var front, f := fields[..|fields| - 1], fields[|fields| - 1];
      SetAllSplits(columns, front, t);
      SetSplits(columns, SetAll(map[], front, t), f.element, SignatureOf(f, ChoicesFor(t.choices, f.element)));
    }
  }

  lemma SetSplits(a: Columns, b: Columns, element: string, signature: Signature)
    ensures a + b[element := signature] == (a + b)[element := signature]
  {}

  /** One interface at a time: what the base gives, less what is omitted, plus what is declared. */
  lemma EmitAddsUp(p: Plan, ids: map<Name, string>, name: Name)
    requires Sound(p) && Named(p, ids) && name in p.byName
    ensures Resolve(p, name) ==
      (Inherited(p, name) - Emit(p, ids, name).omitted) + Emit(p, ids, name).members
  {
    SetAllSplits(Inherited(p, name), MemberFields(p, name), p.byName[name]);
  }

  /** A column is left out of the parent exactly when it is there and resolves to another signature here. */
  lemma {:induction false} OmittedExactlyWhen(p: Plan, ids: map<Name, string>, name: Name, e: string)
    requires Sound(p) && Named(p, ids) && name in p.byName
    ensures e in Emit(p, ids, name).omitted <==>
      name in p.parents.parent && e in Resolve(p, p.parents.parent[name])
      && e in Resolve(p, name) && Resolve(p, name)[e] != Resolve(p, p.parents.parent[name])[e]
  {
    hide Resolve, Inherited, Emit;
    EmitBase(p, ids, name);
    EmitAddsUp(p, ids, name);
  }

  lemma {:induction false} MeaningIsResolved(
      p: Plan, ids: map<Name, string>, file: Declarations, meaning: map<string, Columns>, name: Name)
    requires Sound(p) && Named(p, ids) && Emitted(p, ids, file) && Means(file, meaning)
    requires name in p.byName
    ensures meaning[ids[name]] == Resolve(p, name)
    decreases Above(p.parents, name)
  {
    EmitAddsUp(p, ids, name);
    if name in p.parents.parent {
      AboveShrinks(p.parents, name);
      MeaningIsResolved(p, ids, file, meaning, p.parents.parent[name]);
    }
  }

  ghost function ResolvedById(p: Plan, ids: map<Name, string>): map<string, Columns>
    requires Sound(p) && Named(p, ids)
  {
    map id | id in ids.Values :: var n :| n in ids && ids[n] == id; Resolve(p, n)
  }

  lemma ResolvedIsAReading(p: Plan, ids: map<Name, string>, file: Declarations)
    requires Sound(p) && Named(p, ids) && Emitted(p, ids, file)
    ensures Means(file, ResolvedById(p, ids))
    ensures forall name :: name in p.byName ==> ResolvedById(p, ids)[ids[name]] == Resolve(p, name)
  {
    hide Resolve, Emit, Inherited, Sound;
    var resolved := ResolvedById(p, ids);
    forall name | name in p.byName ensures resolved[ids[name]] == Resolve(p, name) {
      assert ids[name] in ids.Values;
    }
    forall id | id in file
      ensures var i := file[id];
        && (i.base.Some? ==> i.base.value in file)
        && resolved[id] == (if i.base.Some? then resolved[i.base.value] - i.omitted else map[]) + i.members
    {
      var n :| n in ids && ids[n] == id;
      EmitAddsUp(p, ids, n);
      EmitBase(p, ids, n);
    }
  }

  lemma EmitBase(p: Plan, ids: map<Name, string>, name: Name)
    requires Sound(p) && Named(p, ids) && name in p.byName
    ensures Emit(p, ids, name).base.Some? <==> name in p.parents.parent
    ensures name in p.parents.parent ==>
      && p.parents.parent[name] in p.byName
      && Emit(p, ids, name).base.value == ids[p.parents.parent[name]]
      && Inherited(p, name) == Resolve(p, p.parents.parent[name])
    ensures name !in p.parents.parent ==> Inherited(p, name) == map[]
    ensures Emit(p, ids, name).omitted == Changed(Inherited(p, name), Emit(p, ids, name).members)
  {}

  lemma EveryReadingCompiles(p: Plan, ids: map<Name, string>, file: Declarations, meaning: map<string, Columns>)
    requires Sound(p) && Named(p, ids) && Emitted(p, ids, file) && Means(file, meaning)
    ensures meaning == ResolvedById(p, ids) && Compiles(file, meaning)
  {
    hide Resolve, Emit, Inherited, Sound;
    ResolvedIsAReading(p, ids, file);
    forall id | id in file ensures meaning[id] == ResolvedById(p, ids)[id] {
      var n :| n in ids && ids[n] == id;
      MeaningIsResolved(p, ids, file, meaning, n);
    }
    forall id, e | id in file && file[id].base.Some? && e in file[id].members
        && e in meaning[file[id].base.value] && e !in file[id].omitted
      ensures file[id].members[e] == meaning[file[id].base.value][e]
    {
      var n :| n in ids && ids[n] == id;
      EmitBase(p, ids, n);
      MeaningIsResolved(p, ids, file, meaning, p.parents.parent[n]);
    }
  }

  /**
    The emitted types mean what was resolved: the file has exactly one reading under
    TypeScript's rules, it gives every table its resolved columns, and it compiles.
   */
  lemma EmittedTypesMeanResolved(p: Plan, ids: map<Name, string>, file: Declarations)
    requires Sound(p) && Named(p, ids) && Emitted(p, ids, file)
    ensures exists meaning :: Means(file, meaning)
    ensures forall meaning :: Means(file, meaning) ==>
      && Compiles(file, meaning)
      && forall name :: name in p.byName ==> meaning[ids[name]] == Resolve(p, name)
  {
    ResolvedIsAReading(p, ids, file);
    forall meaning | Means(file, meaning)
      ensures Compiles(file, meaning)
      ensures forall name :: name in p.byName ==> meaning[ids[name]] == Resolve(p, name)
    {
      EveryReadingCompiles(p, ids, file, meaning);
    }
  }

  /** From the schema as read to the emitted file: names, cuts, resolution and rendering together. */
  method RenderNativeTypes(tables: seq<Table>) returns (ids: map<Name, string>, p: Plan, file: Declarations)
    requires forall i :: 0 <= i < |tables| ==> ValidTable(tables[i])
    requires forall i, j :: 0 <= i < j < |tables| ==> tables[i].name != tables[j].name
    ensures Sound(p) && p.byName == ByNameOf(tables)
    ensures p.parents.parent.Keys == set n | n in GraphOf(p.byName).parent && !IsCut(GraphOf(p.byName), n)
    ensures forall n :: n in p.parents.parent ==> p.byName[n].superClass == Some(p.parents.parent[n])
    ensures Named(p, ids) && Emitted(p, ids, file)
    ensures forall n :: n in ids ==> IsUsable(ids[n])
  {
    hide Resolve, Emit, IsUsable, Emitted, ByNameOf, IsCut, ValidTable, Sound, GraphOf, Cut, Distinct;
    var names := NamesOf(tables);
    var byName := ByNameOf(tables);
    ByNameIsValid(tables);
    assert Elements(names) == byName.Keys by {
      forall n | n in byName ensures n in names {
        var i :| 0 <= i < |tables| && tables[i].name == n;
        assert names[i] == n;
      }
    }
    DistinctNames(tables);
    ids := AssignNames(names);
    assert Named(Plan(byName, Cut(GraphOf(byName), {})), ids);
    var cuts := CycleCuts(tables, byName);
    p := Plan(byName, Cut(GraphOf(byName), cuts));
    PlanIsSound(byName, cuts);
    file := Render(p, names, ids);
  }

  lemma DistinctNames(tables: seq<Table>)
    requires forall i, j :: 0 <= i < j < |tables| ==> tables[i].name != tables[j].name
    ensures Distinct(NamesOf(tables))
  {}

  /** After the cuts resolution terminates, and only the cut tables lost their parent. */
  lemma PlanIsSound(byName: ByName, cuts: set<Name>)
    requires ValidSchema(byName)
    requires forall n :: n in cuts <==> IsCut(GraphOf(byName), n)
    ensures Sound(Plan(byName, Cut(GraphOf(byName), cuts)))
    ensures Cut(GraphOf(byName), cuts).parent.Keys
         == set n | n in GraphOf(byName).parent && !IsCut(GraphOf(byName), n)
    ensures forall n :: n in Cut(GraphOf(byName), cuts).parent ==>
      byName[n].superClass == Some(Cut(GraphOf(byName), cuts).parent[n])
  {
    CutsLeaveNoCycle(GraphOf(byName), cuts);
  }

  function NamesOf(tables: seq<Table>): (names: seq<Name>)
    ensures |names| == |tables| && forall i :: 0 <= i < |tables| ==> names[i] == tables[i].name
  {
    seq(|tables|, i requires 0 <= i < |tables| => tables[i].name)
  }

  /** The tables by name. */
  function ByNameOf(tables: seq<Table>): ByName {
    if tables == [] then map[]
    else ByNameOf(tables[..|tables| - 1])[tables[|tables| - 1].name := tables[|tables| - 1]]
  }

  lemma {:induction false} ByNameIsValid(tables: seq<Table>)
    requires forall i :: 0 <= i < |tables| ==> ValidTable(tables[i])
    requires forall i, j :: 0 <= i < j < |tables| ==> tables[i].name != tables[j].name
    ensures ValidSchema(ByNameOf(tables))
    ensures forall n :: n in ByNameOf(tables) <==> exists i :: 0 <= i < |tables| && tables[i].name == n
    ensures forall i :: 0 <= i < |tables| ==> ByNameOf(tables)[tables[i].name] == tables[i]
  {
    hide ValidTable;
    if tables != [] { ByNameIsValid(tables[..|tables| - 1]); }
  }
}
