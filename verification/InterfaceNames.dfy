/** Naming the interfaces: no two alike, and none that TypeScript or the header has taken. */
module InterfaceNames {
  import opened Collections
  import opened StringOrder
  import opened Decimal

  const KEYWORDS_TO_INSTANCEOF: set<string> := {
    "break", "case", "catch", "class", "const", "continue", "debugger", "default", "delete", "do", "else",
    "enum", "export", "extends", "false", "finally", "for", "function", "if", "import", "in", "instanceof"}

  const KEYWORDS_FROM_NEW: set<string> := {
    "new", "null", "return", "super", "switch", "this", "throw", "true", "try", "typeof", "var", "void",
    "while", "with"}

  const STRICT_MODE_WORDS: set<string> := {
    "implements", "interface", "let", "package", "private", "protected", "public", "static", "yield"}

  const TYPE_WORDS: set<string> := {
    "any", "boolean", "number", "string", "symbol", "bigint", "object", "unknown", "never", "undefined", "type"}

  predicate IsReserved(name: string) {
    name in KEYWORDS_TO_INSTANCEOF || name in KEYWORDS_FROM_NEW || name in STRICT_MODE_WORDS || name in TYPE_WORDS
  }

  /** The names the header declares. */
  const DECLARED: set<string> :=
    {"SysId", "SysIdList", "GlideDateTime", "GlideDate", "GlideTime", "GlideDuration", "Tables", "TableName"}

  predicate IsNameStart(c: char) {
    'A' <= c <= 'Z' || 'a' <= c <= 'z' || c == '_' || c == '$'
  }

  predicate IsNameChar(c: char) {
    IsNameStart(c) || IsDigit(c)
  }

  /** A name TypeScript accepts for a new interface beside the header's. */
  predicate IsUsable(name: string) {
    && name != [] && IsNameStart(name[0])
    && (forall i :: 0 <= i < |name| ==> IsNameChar(name[i]))
    && !IsReserved(name) && name !in DECLARED
  }

  /** An ASCII identifier that is no word of the language, no name of a built-in type and none of the header's. */
  lemma UsableExactlyWhen(name: string)
    ensures IsUsable(name) <==>
      && name != "" && !('0' <= name[0] <= '9')
      && (forall c :: c in name ==>
            'a' <= c <= 'z' || 'A' <= c <= 'Z' || '0' <= c <= '9' || c == '_' || c == '$')
      && name !in {
        "any", "bigint", "boolean", "break", "case", "catch", "class", "const", "continue", "debugger", "default",
        "delete", "do", "else", "enum", "export", "extends", "false", "finally", "for", "function", "if",
        "implements", "import", "in", "instanceof", "interface", "let", "never", "new", "null", "number", "object",
        "package", "private", "protected", "public", "return", "static", "string", "super", "switch", "symbol",
        "this", "throw", "true", "try", "type", "typeof", "undefined", "unknown", "var", "void", "while", "with",
        "yield", "GlideDate", "GlideDateTime", "GlideDuration", "GlideTime", "SysId", "SysIdList", "TableName",
        "Tables"}
  {
    assert forall i :: 0 <= i < |name| ==> name[i] in name;
  }

  function Sanitized(table: string): (r: string)
    ensures |r| == |table|
    ensures forall i :: 0 <= i < |r| ==> IsNameChar(r[i]) && r[i] == if IsNameChar(table[i]) then table[i] else '_'
  {
    seq(|table|, i requires 0 <= i < |table| => if IsNameChar(table[i]) then table[i] else '_')
  }

  function Base(table: string): string {
    var s := Sanitized(table);
    if s == [] || !IsNameStart(s[0]) || IsReserved(s) || s in DECLARED then "_" + s else s
  }

  lemma ReservedHaveNoUnderscore(w: string)
    requires IsReserved(w) || w in DECLARED
    ensures '_' !in w
  {}

  lemma BaseIsUsable(table: string)
    ensures IsUsable(Base(table))
    ensures Base(table) == table <==> IsUsable(table)
  {
    var b := Base(table);
    var s := Sanitized(table);
    if b != s {
      assert b[0] == '_';
      if IsReserved(b) || b in DECLARED { ReservedHaveNoUnderscore(b); }
    }
    if IsUsable(table) {
      assert Sanitized(table) == table;
    }
  }

  function Suffixed(base: string, n: nat): string {
    base + "_" + NatText(n)
  }

  lemma SuffixedInjective(base: string, a: nat, b: nat)
    requires Suffixed(base, a) == Suffixed(base, b)
    ensures a == b
  {
    assert Suffixed(base, a)[|base| + 1..] == NatText(a);
    assert Suffixed(base, b)[|base| + 1..] == NatText(b);
    NatTextInjective(a, b);
  }

  lemma SuffixedIsUsable(base: string, n: nat)
    requires IsUsable(base)
    ensures IsUsable(Suffixed(base, n)) && Suffixed(base, n) != base
  {
    var s := Suffixed(base, n);
    assert s[|base|] == '_';
    if IsReserved(s) || s in DECLARED {
      ReservedHaveNoUnderscore(s);
    }
  }

  /** `base` when it is free, otherwise the first free `base_2`, `base_3`, ... */
  method FreeName(base: string, used: set<string>) returns (name: string)
    requires IsUsable(base)
    ensures IsUsable(name) && name !in used
    ensures name == base <==> base !in used
    ensures name != base ==>
      exists n: nat :: (n >= 2 && name == Suffixed(base, n) && forall k :: 2 <= k < n ==> Suffixed(base, k) in used)
  {
    name := base;
    var n: nat := 2;
    ghost var untried := used;
    while name in used
      invariant n >= 2 && IsUsable(name)
      invariant untried <= used
      invariant forall k: nat :: k >= n && Suffixed(base, k) in used ==> Suffixed(base, k) in untried
      invariant forall k: nat :: 2 <= k < n - 1 ==> Suffixed(base, k) in used
      invariant if n == 2 then name == base else base in used && name == Suffixed(base, n - 1)
      invariant name in used ==> name in untried
      decreases untried
    {
      untried := untried - {name};
      SuffixedIsUsable(base, n);
      forall k: nat | k >= n && Suffixed(base, k) in used ensures Suffixed(base, k) in untried {
        SuffixedIsUsable(base, k);
        if n > 2 && Suffixed(base, k) == Suffixed(base, n - 1) { SuffixedInjective(base, k, n - 1); }
      }
      name := Suffixed(base, n);
      n := n + 1;
    }
  }

  // --- The names of all tables ------------------------------------------------

  /** The first free name among `base_n`, `base_n+1`, ... */
  function FreeFrom(base: string, used: set<string>, n: nat): string
    decreases |used|
  {
    var name := Suffixed(base, n);
    if name in used then FreeFrom(base, used - {name}, n + 1) else name
  }

  function NameFor(base: string, used: set<string>): string {
    if base in used then FreeFrom(base, used, 2) else base
  }

  lemma {:induction false} FreeFromIs(base: string, used: set<string>, n: nat, m: nat)
    requires n <= m && Suffixed(base, m) !in used
    requires forall k :: n <= k < m ==> Suffixed(base, k) in used
    ensures FreeFrom(base, used, n) == Suffixed(base, m)
    decreases m - n
  {
    hide Suffixed;
    if n < m {
      forall k | n + 1 <= k < m ensures Suffixed(base, k) in used - {Suffixed(base, n)} {
        if Suffixed(base, k) == Suffixed(base, n) { SuffixedInjective(base, k, n); }
      }
      FreeFromIs(base, used - {Suffixed(base, n)}, n + 1, m);
    }
  }

  /** The names taken by tables that were named in this order. */
  function Taken(sorted: seq<string>): set<string> {
    if sorted == [] then {}
    else
      var before := Taken(sorted[..|sorted| - 1]);
      before + {NameFor(Base(sorted[|sorted| - 1]), before)}
  }

  function NamesInOrder(sorted: seq<string>): map<string, string> {
    if sorted == [] then map[]
    else
      var front, t := sorted[..|sorted| - 1], sorted[|sorted| - 1];
      NamesInOrder(front)[t := NameFor(Base(t), Taken(front))]
  }

  /** Distinct, usable names, one for each table. */
  ghost predicate NamedApart(tables: seq<string>, names: map<string, string>) {
    && names.Keys == Elements(tables)
    && (forall t :: t in names ==> IsUsable(names[t]))
    && (forall t, u :: t in names && u in names && t != u ==> names[t] != names[u])
  }

  /** What the assignment gives tables named in code-unit order. */
  ghost predicate Assigned(tables: seq<string>, names: map<string, string>) {
    NamedApart(tables, names) && names == NamesInOrder(Sort(tables))
  }

  /** Names for all tables: distinct, usable, and the sanitized name itself unless an earlier table has it. */
  method AssignNames(tables: seq<string>) returns (names: map<string, string>)
    requires Distinct(tables)
    ensures Assigned(tables, names)
  {
    hide IsUsable, Base, Suffixed, Sorted, NamedApart, NameFor, Taken, NamesInOrder, Distinct;
    var sorted := Sort(tables);
    SortKeepsElements(tables);
    SortKeepsDistinct(tables);
    NothingNamed();
    assert sorted[..0] == [];
    var used: set<string> := {};
    names := map[];
    for i := 0 to |sorted|
      invariant used == Taken(sorted[..i]) == names.Values
      invariant names == NamesInOrder(sorted[..i]) && NamedApart(sorted[..i], names)
    {
      var t := sorted[i];
      BaseIsUsable(t);
      var name := FreeName(Base(t), used);
      FreeNameIs(Base(t), used, name);
      NameOneMore(sorted, i, names, name);
      used := used + {name};
      names := names[t := name];
    }
    assert sorted[..|sorted|] == sorted;
    SameElements(sorted, tables, names);
  }

  lemma NothingNamed()
    ensures NamedApart([], map[]) && NamesInOrder([]) == map[] && Taken([]) == {}
  {}

  lemma SameElements(sorted: seq<string>, tables: seq<string>, names: map<string, string>)
    requires NamedApart(sorted, names) && forall t :: t in sorted <==> t in tables
    ensures NamedApart(tables, names)
  {
    hide IsUsable;
    assert Elements(sorted) == Elements(tables);
  }

  lemma {:induction false} NameOneMore(sorted: seq<string>, i: nat, names: map<string, string>, name: string)
    requires i < |sorted| && Distinct(sorted) && NamedApart(sorted[..i], names)
    requires names == NamesInOrder(sorted[..i]) && names.Values == Taken(sorted[..i])
    requires name == NameFor(Base(sorted[i]), names.Values) && IsUsable(name) && name !in names.Values
    ensures var after := names[sorted[i] := name];
      && NamedApart(sorted[..i + 1], after) && after == NamesInOrder(sorted[..i + 1])
      && Taken(sorted[..i + 1]) == names.Values + {name} == after.Values
  {
    hide IsUsable, Base, NameFor, NamedApart;
    var t, next := sorted[i], sorted[..i + 1];
    assert next == sorted[..i] + [t] && next[..|next| - 1] == sorted[..i];
    assert t !in sorted[..i];
    StillApart(sorted[..i], t, names, name);
  }

  lemma {:induction false} StillApart(tables: seq<string>, t: string, names: map<string, string>, name: string)
    requires t !in tables && NamedApart(tables, names) && IsUsable(name) && name !in names.Values
    ensures NamedApart(tables + [t], names[t := name])
    ensures names[t := name].Values == names.Values + {name}
  {
    hide IsUsable;
    assert Elements(tables + [t]) == Elements(tables) + {t};
    assert forall u :: u in names ==> names[u] in names.Values;
    ValuesGrow(names, t, name);
  }

  lemma FreeNameIs(base: string, used: set<string>, name: string)
    requires name == base <==> base !in used
    requires name !in used
    requires name != base ==>
      exists n: nat :: (n >= 2 && name == Suffixed(base, n) && forall k :: 2 <= k < n ==> Suffixed(base, k) in used)
    ensures name == NameFor(base, used)
  {
    if name != base {
      var n: nat :| n >= 2 && name == Suffixed(base, n) && forall k :: 2 <= k < n ==> Suffixed(base, k) in used;
      FreeFromIs(base, used, 2, n);
    }
  }

  lemma ValuesGrow(m: map<string, string>, k: string, v: string)
    requires k !in m
    ensures m[k := v].Values == m.Values + {v}
  {
    var after := m[k := v];
    assert k in after && after[k] == v;
    forall w | w in m.Values ensures w in after.Values {
      var u :| u in m && m[u] == w;
      assert after[u] == w;
    }
  }

  // --- Which table names are used as they are ---------------------------------

  /** The names that are gone when a table's turn comes: those of the tables that sort before it. */
  function TakenAhead(tables: seq<string>, t: string): set<string>
    requires t in tables
  {
    SortKeepsElements(tables);
    Taken(Sort(tables)[..IndexOf(Sort(tables), t)])
  }

  /** Each table's name depends on its own and on the tables that sort before it. */
  lemma {:induction false} NameOf(sorted: seq<string>, i: nat)
    requires i < |sorted| && Distinct(sorted)
    ensures sorted[i] in NamesInOrder(sorted)
    ensures NamesInOrder(sorted)[sorted[i]] == NameFor(Base(sorted[i]), Taken(sorted[..i]))
    decreases |sorted|
  {
    hide Base, NameFor;
    var n := |sorted| - 1;
    if i < n {
      NameOf(sorted[..n], i);
      assert sorted[..n][..i] == sorted[..i];
    }
  }

  /** Every name but the base itself is longer than it. */
  lemma {:induction false} NameIsBaseExactlyWhen(base: string, used: set<string>)
    ensures NameFor(base, used) == base <==> base !in used
  {
    if base in used {
      FreeFromIsLonger(base, used, 2);
    }
  }

  lemma {:induction false} FreeFromIsLonger(base: string, used: set<string>, n: nat)
    ensures |FreeFrom(base, used, n)| > |base|
    decreases |used|
  {
    var name := Suffixed(base, n);
    if name in used {
      FreeFromIsLonger(base, used - {name}, n + 1);
    }
  }

  /** A table name is used verbatim exactly when it is usable and none of the tables that sort before it takes it. */
  lemma VerbatimExactlyWhenFree(tables: seq<string>, names: map<string, string>, t: string)
    requires Distinct(tables) && Assigned(tables, names) && t in tables
    ensures names[t] == t <==> IsUsable(t) && t !in TakenAhead(tables, t)
  {
    hide Base, IsUsable, NamesInOrder, Taken, NameFor, Sorted;
    BaseIsUsable(t);
    SortKeepsElements(tables);
    SortKeepsDistinct(tables);
    var sorted := Sort(tables);
    NameOf(sorted, IndexOf(sorted, t));
    NameIsBaseExactlyWhen(Base(t), TakenAhead(tables, t));
    assert names[t] == NameFor(Base(t), TakenAhead(tables, t));
    assert IsUsable(names[t]);
  }

  /** So being a valid name is not enough: `a-b` sorts first and takes `a_b`. */
  lemma ValidNameCanBeTaken(names: map<string, string>)
    requires Assigned(["a-b", "a_b"], names)
    ensures IsUsable("a_b") && names["a-b"] == "a_b" && names["a_b"] == "a_b_2"
  {
    hide Base, IsUsable, Leq, Sort;
    var tables := ["a-b", "a_b"];
    BothSanitizeAlike();
    SortedPair();
    var one := ["a-b"];
    assert one[..0] == [] && tables[..1] == one;
    assert Taken(one) == {"a_b"} && NamesInOrder(one) == map["a-b" := "a_b"];
    assert NatText(2) == "2" && Suffixed("a_b", 2) == "a_b_2";
    assert NameFor("a_b", {"a_b"}) == "a_b_2";
  }

  lemma SortedPair()
    ensures Sort(["a-b", "a_b"]) == ["a-b", "a_b"]
  {
    HyphenSortsFirst();
    var pair, last := ["a-b", "a_b"], ["a_b"];
    assert pair[1..] == last && last[1..] == [];
    assert Sort(last) == last;
  }

  lemma BothSanitizeAlike()
    ensures IsUsable("a_b") && Base("a-b") == "a_b" && Base("a_b") == "a_b"
  {
    assert Sanitized("a-b") == "a_b" && Sanitized("a_b") == "a_b";
    assert "a_b"[1] == '_';
    if IsReserved("a_b") || "a_b" in DECLARED {
      ReservedHaveNoUnderscore("a_b");
    }
  }

  lemma HyphenSortsFirst()
    ensures Leq("a-b", "a_b") && !Leq("a_b", "a-b") && "a-b" != "a_b"
  {}
}
