/** Which texts are documents, and that reading one drops nothing and adds nothing. */
module CompositeReading {
  import opened Collections
  import opened StringOrder
  import opened JsText
  import opened PathNames
  import opened JsonText
  import opened JsonRoundTrip
  import opened JsonGrammar
  import opened JsonLayout
  import opened JsObjects
  import opened SettledObjects
  import opened CompositeDocument

  // --- What a document's object is --------------------------------------------

  const SECTIONS := {"sys_db_object", "sys_dictionary", "sys_choice"}

  /** The records of a section: each safely named, each an object. */
  ghost predicate IsSectionObject(v: Json) {
    v.Obj? && forall r :: r in v.members ==> SafeComponent(r.key) && r.value.Obj?
  }

  /** An object with the format, the table it is named after, sections of records, and no other key. */
  ghost predicate IsDocumentObject(v: Json, expected: string) {
    && v.Obj?
    && Member("format", Str("syncrona.data-model/1")) in v.members
    && Member("table", Str(expected)) in v.members
    && forall m :: m in v.members ==>
         m.key == "format" || m.key == "table" || (m.key in SECTIONS && IsSectionObject(m.value))
  }

  /** The map holds the members, each of them and nothing else. */
  ghost predicate Keeps(m: map<string, Json>, members: seq<Member>) {
    && (forall k :: k in m <==> exists c :: c in members && c.key == k)
    && (forall c :: c in members ==> m[c.key] == c.value)
  }

  /** The section holds the records, each of them and nothing else. */
  ghost predicate KeepsSection(section: Section, members: seq<Member>) {
    && (forall k :: k in section <==> exists r :: r in members && r.key == k)
    && (forall r :: r in members ==> r.value.Obj? && Keeps(section[r.key], r.value.members))
  }

  /** The document holds the sections of the object, each of them and nothing else. */
  ghost predicate KeepsDocument(doc: Document, v: Json) {
    && v.Obj?
    && (forall t :: t in doc.sections <==> t in SECTIONS && exists m :: m in v.members && m.key == t)
    && (forall m :: m in v.members && m.key in SECTIONS ==>
          m.value.Obj? && KeepsSection(doc.sections[m.key], m.value.members))
  }

  /** What a text says once a byte-order mark in front of it is taken off. */
  ghost predicate MarkAside(text: string, body: string) {
    text == ['\U{FEFF}'] + body || (text == body && (body == "" || body[0] != '\U{FEFF}'))
  }

  // --- Reading the parts ------------------------------------------------------

  lemma {:induction false} MapKeeps(members: seq<Member>)
    requires InOrder(members)
    ensures Keeps(ToMap(members), members)
  {
    hide InOrder, ToMap, Lookup;
    ToMapKeys(members);
    forall c | c in members ensures ToMap(members)[c.key] == c.value {
      ToMapGives(members, c);
    }
  }

  lemma {:induction false} SectionAccepted(table: string, members: seq<Member>)
    ensures ReadEntries(table, members).Accepted? <==> forall m :: m in members ==> SafeComponent(m.key) && m.value.Obj?
  {
    hide SafeComponent, ToMap;
    if members != [] {
      var n := |members| - 1;
      assert members == members[..n] + [members[n]];
      SectionAccepted(table, members[..n]);
    }
  }

  lemma {:induction false} SectionKeeps(table: string, members: seq<Member>)
    requires forall i, j :: 0 <= i < j < |members| ==> members[i].key != members[j].key
    requires forall m :: m in members && m.value.Obj? ==> InOrder(m.value.members)
    requires ReadEntries(table, members).Accepted?
    ensures KeepsSection(ReadEntries(table, members).value, members)
  {
    hide SafeComponent, ToMap, InOrder, Keeps, KeepsSection;
    if members == [] {
      NothingKept();
    } else {
      var n := |members| - 1;
      var front, last := members[..n], members[n];
      assert members == front + [last] && last in members;
      SectionKeeps(table, front);
      MapKeeps(last.value.members);
      KeepsOneMore(ReadEntries(table, front).value, front, last);
    }
  }

  lemma NothingKept()
    ensures KeepsSection(map[], [])
  {}

  lemma {:induction false} KeepsOneMore(section: Section, front: seq<Member>, last: Member)
    requires KeepsSection(section, front) && forall m :: m in front ==> m.key != last.key
    requires last.value.Obj? && Keeps(ToMap(last.value.members), last.value.members)
    ensures KeepsSection(section[last.key := ToMap(last.value.members)], front + [last])
  {
    hide ToMap, Keeps;
    var members, after := front + [last], section[last.key := ToMap(last.value.members)];
    assert last in members && forall m :: m in members <==> m in front || m == last;
    forall k ensures k in after <==> exists r :: r in members && r.key == k {
      if k in section {
        var r :| r in front && r.key == k;
        assert r in members;
      }
    }
  }

  /** The sections among the first `n` tables that the object has. */
  ghost predicate ReadsTo(obj: map<string, Json>, n: nat)
    requires n <= |COMPOSITE_TABLES|
  {
    forall i :: 0 <= i < n && COMPOSITE_TABLES[i] in obj ==> IsSectionObject(obj[COMPOSITE_TABLES[i]])
  }

  lemma {:induction false} SectionsKeep(canon: string -> Option<string>, obj: map<string, Json>, n: nat)
    requires n <= |COMPOSITE_TABLES| && NormalMap(canon, obj)
    ensures ReadSections(obj, n).Accepted? <==> ReadsTo(obj, n)
    ensures ReadSections(obj, n).Accepted? ==>
      var sections := ReadSections(obj, n).value;
      && (forall t :: t in sections <==> t in obj && exists i :: 0 <= i < n && COMPOSITE_TABLES[i] == t)
      && (forall t :: t in sections ==> obj[t].Obj? && KeepsSection(sections[t], obj[t].members))
  {
    hide ReadEntries, KeepsSection, SafeComponent, Normal;
    if n > 0 {
      var table := COMPOSITE_TABLES[n - 1];
      SectionsKeep(canon, obj, n - 1);
      TableNames();
      if table in obj && obj[table].Obj? {
        NormalSection(canon, obj[table]);
        SectionAccepted(table, obj[table].members);
        if ReadEntries(table, obj[table].members).Accepted? { SectionKeeps(table, obj[table].members); }
      }
    }
  }

  lemma NormalSection(canon: string -> Option<string>, v: Json)
    requires Normal(canon, v) && v.Obj?
    ensures forall i, j :: 0 <= i < j < |v.members| ==> v.members[i].key != v.members[j].key
    ensures forall m :: m in v.members && m.value.Obj? ==> InOrder(m.value.members)
  {}

  // --- Reading a document -----------------------------------------------------

  /**
    A text is accepted exactly when, a byte-order mark aside, it is JSON for a document's
    object; and then the document holds that object's records, all of them and no more.
   */
  lemma {:induction false} AcceptedExactlyWhen(
      canon: string -> Option<string>, text: string, body: string, expected: string)
    requires Doubles(canon)
    requires MarkAside(text, body)
    ensures var read := ParseDocument(canon, text, expected);
      var parsed := Parse(canon, body);
      && (read.Accepted? <==> parsed.Some? && IsDocumentObject(parsed.value, expected))
      && (read.Accepted? ==> read.value.table == expected && KeepsDocument(read.value, parsed.value))
  {
    hide Parse, ParseDocument, IsDocumentObject, KeepsDocument;
    assert StripBOM(text) == body;
    var parsed := Parse(canon, body);
    if parsed.None? || !parsed.value.Obj? {
      NoObjectIsRefused(canon, text, expected);
    } else {
      ParsedIsNormal(canon, body);
      ObjectRead(canon, text, expected, parsed.value.members);
    }
  }

  lemma NoObjectIsRefused(canon: string -> Option<string>, text: string, expected: string)
    requires var parsed := Parse(canon, StripBOM(text)); parsed.None? || !parsed.value.Obj?
    ensures ParseDocument(canon, text, expected).Refused?
    ensures Parse(canon, StripBOM(text)).Some? ==> !IsDocumentObject(Parse(canon, StripBOM(text)).value, expected)
  {
    hide Parse;
  }

  lemma {:induction false} ObjectRead(
      canon: string -> Option<string>, text: string, expected: string, members: seq<Member>)
    requires Parse(canon, StripBOM(text)) == Some(Obj(members)) && Normal(canon, Obj(members))
    ensures var read := ParseDocument(canon, text, expected);
      && (read.Accepted? <==> IsDocumentObject(Obj(members), expected))
      && (read.Accepted? ==> read.value.table == expected && KeepsDocument(read.value, Obj(members)))
  {
    hide Parse, ReadSections, ToMap, IsSectionObject, KeepsDocument, Keeps, Normal, ReadsTo, OnlySections, KeysAllowed;
    MapKeepsNormal(canon, members);
    var obj := ToMap(members);
    SectionsKeep(canon, obj, |COMPOSITE_TABLES|);
    TopLevelKeeps(members, expected);
    AllowedMeans(obj);
    OnlySectionsMeans(members);
    if ParseDocument(canon, text, expected).Accepted? {
      DocumentKeeps(ReadSections(obj, |COMPOSITE_TABLES|).value, members);
    }
  }

  lemma MapKeepsNormal(canon: string -> Option<string>, members: seq<Member>)
    requires Normal(canon, Obj(members))
    ensures Keeps(ToMap(members), members) && NormalMap(canon, ToMap(members))
  {
    hide Keeps;
    NormalMapOf(canon, members);
    MapKeeps(members);
  }

  ghost predicate OnlySections(members: seq<Member>) {
    forall m :: m in members ==>
      m.key == "format" || m.key == "table" || (m.key in SECTIONS && IsSectionObject(m.value))
  }

  lemma OnlySectionsMeans(members: seq<Member>)
    ensures OnlySections(members) <==> forall m :: m in members ==>
      m.key == "format" || m.key == "table" || (m.key in SECTIONS && IsSectionObject(m.value))
  {
    hide IsSectionObject;
  }

  ghost predicate KeysAllowed(obj: map<string, Json>) {
    forall k :: k in obj ==> k in {"format", "table"} || k in COMPOSITE_TABLES
  }

  lemma AllowedMeans(obj: map<string, Json>)
    ensures KeysAllowed(obj) <==> !exists k :: k in obj && k !in {"format", "table"} && k !in COMPOSITE_TABLES
  {}

  lemma {:induction false} ParsedIsNormal(canon: string -> Option<string>, body: string)
    requires Doubles(canon) && Parse(canon, body).Some?
    ensures Normal(canon, Parse(canon, body).value)
  {
    hide Value, Normal;
    ValueIsNormal(canon, SkipWs(body));
  }

  lemma {:induction false} NormalMapOf(canon: string -> Option<string>, members: seq<Member>)
    requires Normal(canon, Obj(members))
    ensures InOrder(members) && NormalMap(canon, ToMap(members))
  {
    MapKeeps(members);
    forall k | k in ToMap(members) ensures Normal(canon, ToMap(members)[k]) {
      var c :| c in members && c.key == k;
      var i :| 0 <= i < |members| && members[i] == c;
      assert Normal(canon, members[i].value);
    }
  }

  lemma SectionNames()
    ensures forall t :: t in SECTIONS <==> t in COMPOSITE_TABLES
    ensures forall t :: t in COMPOSITE_TABLES <==> exists i :: 0 <= i < |COMPOSITE_TABLES| && COMPOSITE_TABLES[i] == t
    ensures "format" !in SECTIONS && "table" !in SECTIONS
  {}

  /** The conditions on the top level, by key and by member. */
  lemma {:induction false} TopLevelKeeps(members: seq<Member>, expected: string)
    requires Keeps(ToMap(members), members)
    ensures var obj := ToMap(members);
      && (MapsTo(obj, "format", Str("syncrona.data-model/1"))
          <==> Member("format", Str("syncrona.data-model/1")) in members)
      && (MapsTo(obj, "table", Str(expected)) <==> Member("table", Str(expected)) in members)
      && (OnlySections(members) <==> KeysAllowed(obj) && ReadsTo(obj, |COMPOSITE_TABLES|))
  {
    hide ToMap, OnlySections, KeysAllowed, ReadsTo;
    var obj := ToMap(members);
    if "format" in obj {
      var c :| c in members && c.key == "format";
      assert c == Member("format", obj["format"]);
    }
    if "table" in obj {
      var c :| c in members && c.key == "table";
      assert c == Member("table", obj["table"]);
    }
    if OnlySections(members) { TopLevelForward(members); }
    if KeysAllowed(obj) && ReadsTo(obj, |COMPOSITE_TABLES|) { TopLevelBackward(members); }
  }

  predicate MapsTo(obj: map<string, Json>, k: string, v: Json) {
    k in obj && obj[k] == v
  }

  lemma {:induction false} TopLevelForward(members: seq<Member>)
    requires Keeps(ToMap(members), members) && OnlySections(members)
    ensures KeysAllowed(ToMap(members)) && ReadsTo(ToMap(members), |COMPOSITE_TABLES|)
  {
    hide ToMap, IsSectionObject;
    var obj := ToMap(members);
    SectionNames();
    forall i | 0 <= i < |COMPOSITE_TABLES| && COMPOSITE_TABLES[i] in obj
      ensures IsSectionObject(obj[COMPOSITE_TABLES[i]])
    {
      var c :| c in members && c.key == COMPOSITE_TABLES[i];
      assert c.key in COMPOSITE_TABLES;
    }
  }

  lemma {:induction false} TopLevelBackward(members: seq<Member>)
    requires Keeps(ToMap(members), members)
    requires KeysAllowed(ToMap(members)) && ReadsTo(ToMap(members), |COMPOSITE_TABLES|)
    ensures OnlySections(members)
  {
    hide ToMap, IsSectionObject;
    SectionNames();
    forall m | m in members
      ensures m.key == "format" || m.key == "table" || (m.key in SECTIONS && IsSectionObject(m.value))
    {
      assert m.key in ToMap(members);
    }
  }

  lemma {:induction false} DocumentKeeps(sections: map<string, Section>, members: seq<Member>)
    requires Keeps(ToMap(members), members)
    requires var obj := ToMap(members);
      && (forall t :: t in sections <==>
            t in obj && exists i :: 0 <= i < |COMPOSITE_TABLES| && COMPOSITE_TABLES[i] == t)
      && (forall t :: t in sections ==> obj[t].Obj? && KeepsSection(sections[t], obj[t].members))
    ensures forall table :: KeepsDocument(Document(table, sections), Obj(members))
  {
    hide ToMap, KeepsSection;
    SectionNames();
  }

  // --- Writing a document -----------------------------------------------------

  /** The map's columns or records, each once, in the order their keys sort in. */
  ghost predicate Arranged(v: Json) {
    v.Obj? && InOrder(v.members) && Sorted(PlainKeys(v.members))
  }

  /** The part of a document for one table: its records and their columns arranged, or nothing if it has none. */
  ghost predicate IsPart(part: seq<Member>, doc: Document, table: string) {
    if table in doc.sections && doc.sections[table] != map[] then
      && |part| == 1 && part[0].key == table && Arranged(part[0].value)
      && KeepsSection(doc.sections[table], part[0].value.members)
      && forall r :: r in part[0].value.members ==> Arranged(r.value)
    else part == []
  }

  /**
    A document is written as its format, its table and the parts of the three tables, in
    the two-space form with a line break behind.
   */
  lemma {:induction false} WrittenExactly(doc: Document)
    returns (objects: seq<Member>, columns: seq<Member>, choices: seq<Member>)
    ensures IsPart(objects, doc, "sys_db_object")
    ensures IsPart(columns, doc, "sys_dictionary")
    ensures IsPart(choices, doc, "sys_choice")
    ensures Serialize(doc) == Shown(Obj(
      [Member("format", Str("syncrona.data-model/1")), Member("table", Str(doc.table))]
      + objects + columns + choices)) + "\n"
  {
    hide IsPart, Shown, Print, SectionMembers;
    objects := PartFor(doc, 0);
    columns := PartFor(doc, 1);
    choices := PartFor(doc, 2);
    InOrderOfTables(doc, objects, columns, choices);
    PrintersShow(Obj(DocumentMembers(doc)));
  }

  lemma InOrderOfTables(doc: Document, objects: seq<Member>, columns: seq<Member>, choices: seq<Member>)
    requires SectionMembers(doc, 1) == SectionMembers(doc, 0) + objects
    requires SectionMembers(doc, 2) == SectionMembers(doc, 1) + columns
    requires SectionMembers(doc, 3) == SectionMembers(doc, 2) + choices
    ensures DocumentMembers(doc) ==
      [Member("format", Str("syncrona.data-model/1")), Member("table", Str(doc.table))] + objects + columns + choices
  {
    hide SectionMembers;
    NoSections(doc);
    assert SectionMembers(doc, 3) == objects + columns + choices;
  }

  lemma NoSections(doc: Document)
    ensures SectionMembers(doc, 0) == []
  {}

  lemma {:induction false} PartFor(doc: Document, n: nat) returns (part: seq<Member>)
    requires n < |COMPOSITE_TABLES|
    ensures SectionMembers(doc, n + 1) == SectionMembers(doc, n) + part
    ensures IsPart(part, doc, COMPOSITE_TABLES[n])
  {
    hide Canonical, InOrder, Sorted, PlainKeys, KeepsSection;
    var table := COMPOSITE_TABLES[n];
    if table in doc.sections && doc.sections[table] != map[] {
      var rows := SectionObject(doc.sections[table]);
      part := [Member(table, Obj(Canonical(rows)))];
      ArrangedCanonical(rows);
      SectionArranged(doc.sections[table]);
    } else {
      part := [];
    }
  }

  lemma {:induction false} ArrangedCanonical(m: map<string, Json>)
    ensures Arranged(Obj(Canonical(m)))
    ensures forall x :: x in Canonical(m) <==> x.key in m && x.value == m[x.key]
    ensures Keeps(m, Canonical(m))
  {
    hide Canonical, InOrder, Sorted, PlainKeys;
    CanonicalMembers(m);
    CanonicalAscends(m);
    forall k | k in m ensures exists c :: c in Canonical(m) && c.key == k {
      assert Member(k, m[k]) in Canonical(m);
    }
  }

  lemma {:induction false} SectionArranged(section: Section)
    ensures var rows := Canonical(SectionObject(section));
      KeepsSection(section, rows) && forall r :: r in rows ==> Arranged(r.value)
  {
    hide Canonical, Arranged, Keeps;
    var rows := Canonical(SectionObject(section));
    ArrangedCanonical(SectionObject(section));
    forall r | r in rows ensures r.value.Obj? && Keeps(section[r.key], r.value.members) && Arranged(r.value) {
      ArrangedCanonical(section[r.key]);
    }
    forall k | k in section ensures exists r :: r in rows && r.key == k {
      assert Member(k, SectionObject(section)[k]) in rows;
    }
  }
}
