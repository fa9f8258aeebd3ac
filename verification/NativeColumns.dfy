/** How a table's columns are typed: its own, its inherited ones and its choice overrides. */
module NativeColumns {
  import opened Collections
  import opened Decimal
  import opened SuperClassGraph
  import opened NativeTypes

  datatype Literal = Number(n: int) | Text(s: string) | NullLiteral

  datatype TsType = Named(name: string) | Union(literals: seq<Literal>)

  /** What a member declares: whether it must be given, and its type. */
  datatype Signature = Signature(required: bool, ty: TsType)

  type Columns = map<string, Signature>

  const INTERNAL_TYPE_MAP: map<string, string> := map[
    "boolean" := "boolean",
    "integer" := "number", "longint" := "number", "decimal" := "number", "float" := "number",
    "percent_complete" := "number", "order_index" := "number",
    "glide_date_time" := "GlideDateTime", "due_date" := "GlideDateTime",
    "glide_date" := "GlideDate", "glide_time" := "GlideTime",
    "glide_duration" := "GlideDuration", "timer" := "GlideDuration",
    "reference" := "SysId", "document_id" := "SysId", "domain_id" := "SysId", "GUID" := "SysId",
    "glide_list" := "SysIdList"]

  function BaseType(internalType: string): string {
    if internalType in INTERNAL_TYPE_MAP then INTERNAL_TYPE_MAP[internalType] else "string"
  }

  /** Six internal types are numbers, one is a truth value; a type not listed is text, and no listed one is. */
  lemma BaseTypes(t: string)
    ensures BaseType(t) == "number" <==>
      t in {"integer", "longint", "decimal", "float", "percent_complete", "order_index"}
    ensures BaseType(t) == "boolean" <==> t == "boolean"
    ensures BaseType(t) == "string" <==> t !in INTERNAL_TYPE_MAP
  {}

  // --- Literal unions ---------------------------------------------------------

  /** The numbers all the values spell canonically, if they all do. */
  function NumbersOf(values: seq<string>): (r: Option<seq<int>>)
    ensures r.Some? <==> forall v :: v in values ==> CanonicalInteger(v).Some?
    ensures r.Some? ==> |r.value| == |values| && forall i :: 0 <= i < |values| ==> IntText(r.value[i]) == values[i]
  {
    if values == [] then Some([])
    else
      var rest := NumbersOf(values[1..]);
      var first := CanonicalInteger(values[0]);
      assert forall v :: v in values <==> v == values[0] || v in values[1..];
      if rest.Some? && first.Some? then Some([first.value] + rest.value) else None
  }

  predicate Ascending(xs: seq<int>) {
    forall i, j :: 0 <= i < j < |xs| ==> xs[i] <= xs[j]
  }

  function InsertNumber(n: int, xs: seq<int>): (r: seq<int>)
    ensures forall m :: m in r <==> m == n || m in xs
    ensures |r| == |xs| + 1
  {
    if xs == [] || n <= xs[0] then [n] + xs
    else
      assert xs == [xs[0]] + xs[1..];
      [xs[0]] + InsertNumber(n, xs[1..])
  }

  lemma {:induction false} InsertAscends(n: int, xs: seq<int>)
    requires Ascending(xs)
    ensures Ascending(InsertNumber(n, xs))
  {
    if xs != [] && n > xs[0] {
      InsertAscends(n, xs[1..]);
      var rest := InsertNumber(n, xs[1..]);
      forall i | 0 <= i < |rest| ensures xs[0] <= rest[i] {
        assert rest[i] in rest;
      }
      assert InsertNumber(n, xs) == [xs[0]] + rest;
    }
  }

  function SortNumbers(xs: seq<int>): (r: seq<int>)
    ensures forall m :: m in r <==> m in xs
    ensures Ascending(r) && |r| == |xs|
  {
    if xs == [] then []
    else
      assert xs == [xs[0]] + xs[1..];
      InsertAscends(xs[0], SortNumbers(xs[1..]));
      InsertNumber(xs[0], SortNumbers(xs[1..]))
  }

  function NumberLiterals(xs: seq<int>): (r: seq<Literal>)
    ensures |r| == |xs| && forall i :: 0 <= i < |xs| ==> r[i] == Number(xs[i])
  {
    seq(|xs|, i requires 0 <= i < |xs| => Number(xs[i]))
  }

  function TextLiterals(xs: seq<string>): (r: seq<Literal>)
    ensures |r| == |xs| && forall i :: 0 <= i < |xs| ==> r[i] == Text(xs[i])
  {
    seq(|xs|, i requires 0 <= i < |xs| => Text(xs[i]))
  }

  /** The union a choice list makes of a column, or None when the column keeps its base type. */
  function LiteralUnion(f: Field, values: seq<string>): Option<TsType> {
    if f.choice.NoChoice? || f.choice.Suggestion? || values == [] then None
    else
      var numbers := if BaseType(f.internalType) == "number" then NumbersOf(values) else None;
      var literals :=
        if numbers.Some? then NumberLiterals(SortNumbers(numbers.value)) else TextLiterals(values);
      var empty := if numbers.Some? then NullLiteral else Text("");
      Some(Union(literals + if f.choice.WithNone? && "" !in values then [empty] else []))
  }

  // --- What a column's type refuses -------------------------------------------

  /** A choice list that closes the column: a dropdown with something in it. */
  predicate Closes(f: Field, values: seq<string>) {
    (f.choice.WithNone? || f.choice.WithoutNone?) && values != []
  }

  /** A stored choice value as the literal a union would hold for it. */
  ghost predicate Spells(l: Literal, v: string) {
    match l
    case Number(n) => IntText(n) == v
    case Text(s) => s == v
    case NullLiteral => v == ""
  }

  /** A union admits exactly the choice values, and "empty" exactly under --None--. */
  lemma UnionAdmitsExactlyTheChoices(f: Field, values: seq<string>)
    requires LiteralUnion(f, values).Some?
    ensures LiteralUnion(f, values).value.Union?
    ensures forall v ::
      (exists l :: l in LiteralUnion(f, values).value.literals && Spells(l, v))
      <==> v in values || (f.choice.WithNone? && v == "")
  {
    var literals := LiteralUnion(f, values).value.literals;
    forall v | v in values || (f.choice.WithNone? && v == "")
      ensures exists l :: l in literals && Spells(l, v)
    {
      UnionHolds(f, values, v);
    }
    forall v, l | l in literals && Spells(l, v)
      ensures v in values || (f.choice.WithNone? && v == "")
    {
      UnionHoldsOnly(f, values, v, l);
    }
  }

  lemma UnionHolds(f: Field, values: seq<string>, v: string)
    requires LiteralUnion(f, values).Some?
    requires v in values || (f.choice.WithNone? && v == "")
    ensures exists l :: l in LiteralUnion(f, values).value.literals && Spells(l, v)
  {
    var literals := LiteralUnion(f, values).value.literals;
    var numbers := if BaseType(f.internalType) == "number" then NumbersOf(values) else None;
    if v !in values {
      assert literals[|literals| - 1] in literals && Spells(literals[|literals| - 1], v);
    } else {
      var i :| 0 <= i < |values| && values[i] == v;
      if numbers.Some? {
        var sorted := SortNumbers(numbers.value);
        assert numbers.value[i] in sorted;
        var j :| 0 <= j < |sorted| && sorted[j] == numbers.value[i];
        assert literals[j] == Number(sorted[j]) && Spells(literals[j], v);
      } else {
        assert literals[i] == Text(v) && Spells(literals[i], v);
      }
    }
  }

  lemma UnionHoldsOnly(f: Field, values: seq<string>, v: string, l: Literal)
    requires LiteralUnion(f, values).Some?
    requires l in LiteralUnion(f, values).value.literals && Spells(l, v)
    ensures v in values || (f.choice.WithNone? && v == "")
  {
    var numbers := if BaseType(f.internalType) == "number" then NumbersOf(values) else None;
    if numbers.Some? && l.Number? {
      assert l.n in SortNumbers(numbers.value);
      var i :| 0 <= i < |numbers.value| && numbers.value[i] == l.n;
      assert values[i] == v;
    }
  }

  /** A stored value that no literal of the type spells; a type that is no union refuses none. */
  ghost predicate Refuses(ty: TsType, v: string) {
    ty.Union? && forall l :: l in ty.literals ==> !Spells(l, v)
  }

  /**
    A column's type refuses a value exactly when the column is a dropdown with a list
    that lacks it, the empty value aside where the dropdown has --None--. Any other
    column keeps its base type.
   */
  lemma {:induction false} RefusesExactlyWhen(f: Field, values: seq<string>)
    ensures forall v :: Refuses(FieldType(f, values), v) <==>
      Closes(f, values) && v !in values && !(f.choice.WithNone? && v == "")
    ensures !Closes(f, values) ==> FieldType(f, values) == Named(BaseType(f.internalType))
  {
    hide NumbersOf, SortNumbers, Spells;
    if Closes(f, values) {
      UnionAdmitsExactlyTheChoices(f, values);
    }
  }

  /**
    The literals are numbers, ascending, exactly when the base type is number and every
    value spells a safe integer canonically; otherwise they are the values as texts, in
    their order. The literal for "empty" comes last, exactly under --None--.
   */
  lemma {:induction false} LiteralsExactlyWhen(f: Field, values: seq<string>)
    requires Closes(f, values)
    ensures var literals := FieldType(f, values).literals;
      var numeric := BaseType(f.internalType) == "number" && forall v :: v in values ==> CanonicalInteger(v).Some?;
      var ends := f.choice.WithNone? && "" !in values;
      && |literals| == |values| + (if ends then 1 else 0)
      && (numeric ==>
            && (forall i :: 0 <= i < |values| ==> literals[i].Number?)
            && (forall i, j :: 0 <= i < j < |values| ==> literals[i].n <= literals[j].n))
      && (!numeric ==> forall i :: 0 <= i < |values| ==> literals[i] == Text(values[i]))
      && (ends ==> literals[|values|] == if numeric then NullLiteral else Text(""))
  {
    hide NumbersOf, SortNumbers, BaseType;
    var numbers := if BaseType(f.internalType) == "number" then NumbersOf(values) else None;
    var literals := FieldType(f, values).literals;
    if numbers.Some? {
      var sorted := NumberLiterals(SortNumbers(numbers.value));
      assert literals[..|values|] == sorted;
      assert forall i :: 0 <= i < |values| ==> literals[i] == sorted[i];
    } else {
      assert literals[..|values|] == TextLiterals(values);
      assert forall i :: 0 <= i < |values| ==> literals[i] == TextLiterals(values)[i];
    }
  }

  function FieldType(f: Field, values: seq<string>): TsType {
    var union := LiteralUnion(f, values);
    if union.Some? then union.value else Named(BaseType(f.internalType))
  }

  function SignatureOf(f: Field, values: seq<string>): Signature {
    Signature(f.mandatory, FieldType(f, values))
  }

  // --- Resolution -------------------------------------------------------------

  /** The schema with the parents left after the cuts. */
  datatype Plan = Plan(byName: ByName, parents: Graph)

  ghost predicate Sound(p: Plan) {
    && ValidSchema(p.byName)
    && Closed(p.parents) && p.parents.nodes == p.byName.Keys
    && Acyclic(p.parents)
  }

  function OwnField(fields: seq<Field>, element: string): (r: Option<Field>)
    ensures r.Some? ==> r.value in fields && r.value.element == element
    ensures r.None? ==> forall f :: f in fields ==> f.element != element
  {
    if fields == [] then None
    else if fields[0].element == element then Some(fields[0])
    else OwnField(fields[1..], element)
  }

  /** `choices[element]`, empty when the table lists none. */
  function ChoicesFor(choices: seq<ChoiceList>, element: string): (r: seq<string>)
    ensures (forall c :: c in choices ==> c.element != element) ==> r == []
  {
    if choices == [] then []
    else if choices[0].element == element then choices[0].values
    else ChoicesFor(choices[1..], element)
  }

  /** The nearest declaration of a column, from the table upwards. */
  function FieldOf(p: Plan, name: Name, element: string): (r: Option<Field>)
    requires Sound(p) && name in p.byName
    ensures r.Some? ==> r.value.element == element
    decreases Above(p.parents, name)
  {
    var own := OwnField(p.byName[name].fields, element);
    if own.Some? then own
    else if name in p.parents.parent then
      AboveShrinks(p.parents, name);
      FieldOf(p, p.parents.parent[name], element)
    else None
  }

  predicate Overrides(p: Plan, name: Name, inherited: Columns, c: ChoiceList)
    requires Sound(p) && name in p.byName && name in p.parents.parent
  {
    && OwnField(p.byName[name].fields, c.element).None?
    && c.element in inherited
    && FieldOf(p, p.parents.parent[name], c.element).Some?
    && LiteralUnion(FieldOf(p, p.parents.parent[name], c.element).value, c.values).Some?
  }

  /** Inherited columns whose choices the table overrides, over a prefix of its choice lists. */
  function ChoiceOverrides(p: Plan, name: Name, inherited: Columns, choices: seq<ChoiceList>): (r: seq<Field>)
    requires Sound(p) && name in p.byName
  {
    if choices == [] || name !in p.parents.parent then []
    else
      var n := |choices| - 1;
      ChoiceOverrides(p, name, inherited, choices[..n])
      + if Overrides(p, name, inherited, choices[n])
        then [FieldOf(p, p.parents.parent[name], choices[n].element).value] else []
  }

  /** `fields.set` for each column in turn, typed by the table's choices. */
  function SetAll(columns: Columns, fields: seq<Field>, t: Table): Columns {
    if fields == [] then columns
    else
      var f := fields[|fields| - 1];
      SetAll(columns, fields[..|fields| - 1], t)[f.element := SignatureOf(f, ChoicesFor(t.choices, f.element))]
  }

  function Inherited(p: Plan, name: Name): Columns
    requires Sound(p) && name in p.byName
    decreases Above(p.parents, name), 0
  {
    if name in p.parents.parent then
      AboveShrinks(p.parents, name);
      Resolve(p, p.parents.parent[name])
    else map[]
  }

  /** Every column of a table, own and inherited, with its signature. */
  function Resolve(p: Plan, name: Name): Columns
    requires Sound(p) && name in p.byName
    decreases Above(p.parents, name), 1
  {
    var t := p.byName[name];
    var inherited := Inherited(p, name);
    SetAll(inherited, ChoiceOverrides(p, name, inherited, t.choices) + t.fields, t)
  }

  // --- What resolution means --------------------------------------------------

  /**
    The choice list a column has at a table: the nearest one between the table and the
    column's declaration that closes it, or none.
   */
  function ChoicesInForce(p: Plan, name: Name, f: Field): Option<seq<string>>
    requires Sound(p) && name in p.byName
    decreases Above(p.parents, name)
  {
    var t := p.byName[name];
    if Closes(f, ChoicesFor(t.choices, f.element)) then Some(ChoicesFor(t.choices, f.element))
    else if OwnField(t.fields, f.element).Some? then None
    else if name in p.parents.parent then
      AboveShrinks(p.parents, name);
      ChoicesInForce(p, p.parents.parent[name], f)
    else None
  }

  predicate DistinctElements(fields: seq<Field>) {
    forall i, j :: 0 <= i < j < |fields| ==> fields[i].element != fields[j].element
  }

  lemma {:induction false} SetAllElsewhere(columns: Columns, fields: seq<Field>, t: Table, e: string)
    requires forall f :: f in fields ==> f.element != e
    ensures e in SetAll(columns, fields, t) <==> e in columns
    ensures e in columns ==> SetAll(columns, fields, t)[e] == columns[e]
  {
    if fields != [] { SetAllElsewhere(columns, fields[..|fields| - 1], t, e); }
  }

  lemma {:induction false} SetAllAt(columns: Columns, fields: seq<Field>, t: Table, f: Field)
    requires DistinctElements(fields) && f in fields
    ensures f.element in SetAll(columns, fields, t)
    ensures SetAll(columns, fields, t)[f.element] == SignatureOf(f, ChoicesFor(t.choices, f.element))
  {
    if f != fields[|fields| - 1] { SetAllAt(columns, fields[..|fields| - 1], t, f); }
  }

  lemma {:induction false} ChoicesAt(choices: seq<ChoiceList>, c: ChoiceList)
    requires forall i, j :: 0 <= i < j < |choices| ==> choices[i].element != choices[j].element
    requires c in choices
    ensures ChoicesFor(choices, c.element) == c.values
  {
    if choices[0] != c {
      assert c in choices[1..];
      ChoicesAt(choices[1..], c);
    }
  }

  /** A table overrides an inherited column exactly when it lists choices that close it. */
  lemma OverridesExactlyWhen(p: Plan, name: Name, inherited: Columns, c: ChoiceList)
    requires Sound(p) && name in p.byName && name in p.parents.parent
    ensures Overrides(p, name, inherited, c) <==>
      && (forall f :: f in p.byName[name].fields ==> f.element != c.element)
      && c.element in inherited
      && FieldOf(p, p.parents.parent[name], c.element).Some?
      && Closes(FieldOf(p, p.parents.parent[name], c.element).value, c.values)
  {}

  /** The overrides of a table: one per overridden column, none of them its own. */
  lemma {:induction false} OverridesMembers(p: Plan, name: Name, inherited: Columns, choices: seq<ChoiceList>)
    requires Sound(p) && name in p.byName && name in p.parents.parent
    requires forall i, j :: 0 <= i < j < |choices| ==> choices[i].element != choices[j].element
    ensures forall f :: f in ChoiceOverrides(p, name, inherited, choices) <==>
      (exists c :: c in choices && Overrides(p, name, inherited, c)
        && f == FieldOf(p, p.parents.parent[name], c.element).value)
    ensures DistinctElements(ChoiceOverrides(p, name, inherited, choices))
  {
    hide LiteralUnion, OwnField;
    if choices != [] {
      var n := |choices| - 1;
      OverridesMembers(p, name, inherited, choices[..n]);
      var front := ChoiceOverrides(p, name, inherited, choices[..n]);
      forall f | f in front ensures f.element != choices[n].element {
        var c :| c in choices[..n] && Overrides(p, name, inherited, c)
          && f == FieldOf(p, p.parents.parent[name], c.element).value;
        assert f.element == c.element;
      }
    }
  }

  /** The members a table declares have pairwise different names. */
  lemma MembersDistinct(p: Plan, name: Name, inherited: Columns)
    requires Sound(p) && name in p.byName
    ensures DistinctElements(ChoiceOverrides(p, name, inherited, p.byName[name].choices) + p.byName[name].fields)
    ensures forall f :: f in ChoiceOverrides(p, name, inherited, p.byName[name].choices) ==>
      f.element in inherited && OwnField(p.byName[name].fields, f.element).None?
  {
    if name in p.parents.parent {
      OverridesMembers(p, name, inherited, p.byName[name].choices);
      var overrides := ChoiceOverrides(p, name, inherited, p.byName[name].choices);
      forall f | f in overrides ensures f.element in inherited && OwnField(p.byName[name].fields, f.element).None? {
        var c :| c in p.byName[name].choices && Overrides(p, name, inherited, c)
          && f == FieldOf(p, p.parents.parent[name], c.element).value;
      }
      forall i, j | 0 <= i < |overrides| && 0 <= j < |p.byName[name].fields|
        ensures overrides[i].element != p.byName[name].fields[j].element
      {
        assert overrides[i] in overrides;
      }
    }
  }

  /**
    Resolution per column: the nearest declaration, typed by the nearest choice list that
    closes it. Its type refuses exactly what that list lacks, --None-- aside.
   */
  lemma {:induction false} ResolvedColumn(p: Plan, name: Name, e: string)
    requires Sound(p) && name in p.byName
    ensures e in Resolve(p, name) <==> FieldOf(p, name, e).Some?
    ensures e in Resolve(p, name) ==>
      var f := FieldOf(p, name, e).value;
      var values := ChoicesInForce(p, name, f);
      && Resolve(p, name)[e] == SignatureOf(f, if values.Some? then values.value else [])
      && Resolve(p, name)[e].required == f.mandatory
      && (values.None? ==> Resolve(p, name)[e].ty == Named(BaseType(f.internalType)))
      && forall v :: Refuses(Resolve(p, name)[e].ty, v) <==>
           values.Some? && v !in values.value && !(f.choice.WithNone? && v == "")
    decreases Above(p.parents, name)
  {
    var t := p.byName[name];
    var inherited := Inherited(p, name);
    var overrides := ChoiceOverrides(p, name, inherited, t.choices);
    var fields := overrides + t.fields;
    MembersDistinct(p, name, inherited);
    var own := OwnField(t.fields, e);
    if FieldOf(p, name, e).Some? {
      var f := FieldOf(p, name, e).value;
      InForceCloses(p, name, f);
      RefusesExactlyWhen(f, []);
      RefusesExactlyWhen(f, ChoicesFor(t.choices, e));
      if ChoicesInForce(p, name, f).Some? { RefusesExactlyWhen(f, ChoicesInForce(p, name, f).value); }
    }
    hide FieldType, Refuses;
    if own.Some? {
      SetAllAt(inherited, fields, t, own.value);
    } else if name in p.parents.parent {
      AboveShrinks(p.parents, name);
      ResolvedColumn(p, p.parents.parent[name], e);
      InheritedColumn(p, name, e);
    } else {
      SetAllElsewhere(inherited, fields, t, e);
    }
  }

  lemma {:induction false} InForceCloses(p: Plan, name: Name, f: Field)
    requires Sound(p) && name in p.byName
    ensures ChoicesInForce(p, name, f).Some? ==> Closes(f, ChoicesInForce(p, name, f).value)
    decreases Above(p.parents, name)
  {
    if name in p.parents.parent {
      AboveShrinks(p.parents, name);
      InForceCloses(p, p.parents.parent[name], f);
    }
  }

  lemma InheritedColumn(p: Plan, name: Name, e: string)
    requires Sound(p) && name in p.byName && name in p.parents.parent
    requires OwnField(p.byName[name].fields, e).None?
    requires e in Inherited(p, name) <==> FieldOf(p, p.parents.parent[name], e).Some?
    ensures e in Resolve(p, name) <==> e in Inherited(p, name)
    ensures e in Inherited(p, name) ==>
      var f := FieldOf(p, p.parents.parent[name], e).value;
      var values := ChoicesFor(p.byName[name].choices, e);
      Resolve(p, name)[e] == if Closes(f, values) then SignatureOf(f, values) else Inherited(p, name)[e]
  {
    var t := p.byName[name];
    var inherited := Inherited(p, name);
    var overrides := ChoiceOverrides(p, name, inherited, t.choices);
    var fields := overrides + t.fields;
    MembersDistinct(p, name, inherited);
    OverridesMembers(p, name, inherited, t.choices);
    if c :| c in t.choices && c.element == e && Overrides(p, name, inherited, c) {
      ChoicesAt(t.choices, c);
      var f := FieldOf(p, p.parents.parent[name], e).value;
      assert f in overrides;
      SetAllAt(inherited, fields, t, f);
    } else {
      forall f | f in fields ensures f.element != e {
        if f in overrides {
          var c :| c in t.choices && Overrides(p, name, inherited, c)
            && f == FieldOf(p, p.parents.parent[name], c.element).value;
        }
      }
      SetAllElsewhere(inherited, fields, t, e);
      NoListNoUnion(p, name, e);
    }
  }

  lemma NoListNoUnion(p: Plan, name: Name, e: string)
    requires Sound(p) && name in p.byName && name in p.parents.parent
    requires OwnField(p.byName[name].fields, e).None?
    requires forall c :: c in p.byName[name].choices && c.element == e ==> !Overrides(p, name, Inherited(p, name), c)
    requires e in Inherited(p, name) ==> FieldOf(p, p.parents.parent[name], e).Some?
    ensures e in Inherited(p, name) ==>
      LiteralUnion(FieldOf(p, p.parents.parent[name], e).value, ChoicesFor(p.byName[name].choices, e)).None?
  {
    if c :| c in p.byName[name].choices && c.element == e {
      ChoicesAt(p.byName[name].choices, c);
    }
  }
}
