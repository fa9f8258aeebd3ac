/** One data-model document: its canonical text, its validating parser, and the round trip between them. */
module CompositeDocument {
  import opened Collections
  import opened JsText
  import opened PathNames
  import opened JsonText
  import opened JsonRoundTrip
  import opened JsObjects
  import opened SettledObjects

  const COMPOSITE_TABLES := ["sys_db_object", "sys_dictionary", "sys_choice"]

  const COMPOSITE_FORMAT := "syncrona.data-model/1"

  /** One record's columns. */
  type Entry = map<string, Json>

  /** The entries of one table, by record name. */
  type Section = map<string, Entry>

  datatype Document = Document(table: string, sections: map<string, Section>)

  datatype Refusal =
    | NotJson
    | NotAnObject
    | WrongFormat
    | WrongTable
    | UnknownKeys
    | BadSection(table: string)
    | BadName(table: string, record: string)
    | BadEntry(table: string, record: string)

  datatype Read<+T> = Accepted(value: T) | Refused(reason: Refusal)

  // --- Serializing ------------------------------------------------------------

  function SectionObject(section: Section): map<string, Json> {
    map name | name in section :: Obj(Canonical(section[name]))
  }

  /** The sections among the first `n` tables that hold an entry, in table order. */
  function SectionMembers(doc: Document, n: nat): seq<Member>
    requires n <= |COMPOSITE_TABLES|
  {
    if n == 0 then []
    else
      var table := COMPOSITE_TABLES[n - 1];
      var before := SectionMembers(doc, n - 1);
      if table in doc.sections && doc.sections[table] != map[]
      then before + [Member(table, Obj(Canonical(SectionObject(doc.sections[table]))))]
      else before
  }

  function DocumentMembers(doc: Document): seq<Member> {
    [Member("format", Str(COMPOSITE_FORMAT)), Member("table", Str(doc.table))]
    + SectionMembers(doc, |COMPOSITE_TABLES|)
  }

  /** The document's text. */
  function Serialize(doc: Document): string {
    Pretty(Obj(DocumentMembers(doc))) + "\n"
  }

  /** The text by which two entries are compared. */
  function EntryText(entry: Entry): string {
    Pretty(Obj(Canonical(entry))) + "\n"
  }

  // --- Parsing ----------------------------------------------------------------

  /** The entries of a section, record by record; the first one that cannot be one refuses it. */
  function ReadEntries(table: string, members: seq<Member>): Read<Section> {
    if members == [] then Accepted(map[])
    else
      var before := ReadEntries(table, members[..|members| - 1]);
      var m := members[|members| - 1];
      if before.Refused? then before
      else if !SafeComponent(m.key) then Refused(BadName(table, m.key))
      else if !m.value.Obj? then Refused(BadEntry(table, m.key))
      else Accepted(before.value[m.key := ToMap(m.value.members)])
  }

  /** The sections of the first `n` tables, table by table. */
  function ReadSections(obj: map<string, Json>, n: nat): Read<map<string, Section>>
    requires n <= |COMPOSITE_TABLES|
  {
    if n == 0 then Accepted(map[])
    else
      var before := ReadSections(obj, n - 1);
      var table := COMPOSITE_TABLES[n - 1];
      if before.Refused? || table !in obj then before
      else if !obj[table].Obj? then Refused(BadSection(table))
      else
        var section := ReadEntries(table, obj[table].members);
        if section.Refused? then Refused(section.reason) else Accepted(before.value[table := section.value])
  }

  /** The reader refuses whatever it could not write back: nothing of a document may be dropped in silence. */
  function ParseDocument(canon: string -> Option<string>, text: string, expected: string): Read<Document> {
    var parsed := Parse(canon, StripBOM(text));
    if parsed.None? then Refused(NotJson)
    else if !parsed.value.Obj? then Refused(NotAnObject)
    else
      var obj := ToMap(parsed.value.members);
      if "format" !in obj || obj["format"] != Str(COMPOSITE_FORMAT) then Refused(WrongFormat)
      else if "table" !in obj || obj["table"] != Str(expected) then Refused(WrongTable)
      else if exists k :: k in obj && k !in {"format", "table"} && k !in COMPOSITE_TABLES then Refused(UnknownKeys)
      else
        var sections := ReadSections(obj, |COMPOSITE_TABLES|);
        if sections.Refused? then Refused(sections.reason) else Accepted(Document(expected, sections.value))
  }

  // --- Documents as records ---------------------------------------------------

  ghost predicate ValidSection(canon: string -> Option<string>, section: Section) {
    forall name :: name in section ==> SafeComponent(name) && NormalMap(canon, section[name])
  }

  /** What a parsed document satisfies. */
  ghost predicate ValidDocument(canon: string -> Option<string>, doc: Document) {
    forall t :: t in doc.sections ==> t in COMPOSITE_TABLES && ValidSection(canon, doc.sections[t])
  }

  function SettleSection(section: Section): Section {
    map name | name in section :: SettleMap(section[name])
  }

  /** The document as its text holds it: no empty section, and null for a number past the range. */
  function AsWritten(doc: Document): Document {
    doc.(sections := map t | t in doc.sections && doc.sections[t] != map[] :: SettleSection(doc.sections[t]))
  }

  // --- Reading a section back -------------------------------------------------

  function Only(section: Section, keys: set<string>): Section {
    map k | k in section && k in keys :: section[k]
  }

  lemma KeySetSnoc(front: seq<Member>, last: Member)
    ensures KeySet(front + [last]) == KeySet(front) + {last.key}
  {}

  lemma {:induction false} EntriesRead(table: string, members: seq<Member>, section: Section)
    requires forall i, j :: 0 <= i < j < |members| ==> members[i].key != members[j].key
    requires forall m :: m in members ==>
      m.key in section && SafeComponent(m.key) && m.value.Obj? && ToMap(m.value.members) == section[m.key]
    ensures ReadEntries(table, members) == Accepted(Only(section, KeySet(members)))
  {
    hide SafeComponent, ToMap, KeySet;
    if members == [] {
      assert KeySet(members) == {} by { NoKeys(); }
    } else {
      var front, last := members[..|members| - 1], members[|members| - 1];
      assert members == front + [last];
      assert last in members;
      EntriesRead(table, front, section);
      KeySetSnoc(front, last);
      assert Only(section, KeySet(front))[last.key := section[last.key]] == Only(section, KeySet(members));
    }
  }

  lemma NoKeys()
    ensures KeySet([]) == {}
  {}

  lemma {:induction false} SectionReadsBack(canon: string -> Option<string>, table: string, section: Section)
    requires ValidSection(canon, section)
    ensures var members := SettleMembers(Canonical(SectionObject(section)));
      ReadEntries(table, members) == Accepted(SettleSection(section))
  {
    hide Canonical, InOrder, SafeComponent, ReadEntries, ToMap, NormalMap, KeySet, SettleMembers, Settle;
    var settled := SettleMap(SectionObject(section));
    CanonicalOfSettled(SectionObject(section));
    CanonicalMembers(settled);
    var members := Canonical(settled);
    DistinctKeys(members);
    forall m | m in members
      ensures m.key in SettleSection(section) && SafeComponent(m.key) && m.value.Obj?
      ensures ToMap(m.value.members) == SettleSection(section)[m.key]
    {
      EntryReadsBack(section, m.key);
    }
    EntriesRead(table, members, SettleSection(section));
    CanonicalKeys(settled);
    assert Only(SettleSection(section), KeySet(members)) == SettleSection(section);
  }

  lemma DistinctKeys(members: seq<Member>)
    requires InOrder(members)
    ensures forall i, j :: 0 <= i < j < |members| ==> members[i].key != members[j].key
  {}

  lemma {:induction false} CanonicalKeys(m: map<string, Json>)
    ensures KeySet(Canonical(m)) == m.Keys
  {
    hide Canonical, InOrder;
    CanonicalMembers(m);
    forall k ensures k in KeySet(Canonical(m)) <==> k in m {
      if k in m {
        assert Member(k, m[k]) in Canonical(m);
      }
    }
  }

  lemma {:induction false} EntryReadsBack(section: Section, name: string)
    requires name in section
    ensures var v := Settle(SectionObject(section)[name]);
      v.Obj? && ToMap(v.members) == SettleMap(section[name])
  {
    hide Canonical, InOrder, ToMap;
    SettleOfCanonical(section[name]);
    ToMapOfCanonical(SettleMap(section[name]));
  }

  // --- Reading the sections back ----------------------------------------------

  lemma TableNames()
    ensures forall i, j :: 0 <= i < j < |COMPOSITE_TABLES| ==> COMPOSITE_TABLES[i] != COMPOSITE_TABLES[j]
    ensures forall i :: 0 <= i < |COMPOSITE_TABLES| ==>
      COMPOSITE_TABLES[i] != "format" && COMPOSITE_TABLES[i] != "table"
    ensures "format" != "table"
    ensures forall k :: k in COMPOSITE_TABLES || k == "format" || k == "table" ==> IndexOfKey(k).None?
  {}

  ghost predicate Holds(doc: Document, i: nat)
    requires i < |COMPOSITE_TABLES|
  {
    COMPOSITE_TABLES[i] in doc.sections && doc.sections[COMPOSITE_TABLES[i]] != map[]
  }

  ghost function SectionMember(doc: Document, i: nat): Member
    requires i < |COMPOSITE_TABLES| && Holds(doc, i)
  {
    Member(COMPOSITE_TABLES[i], Obj(Canonical(SectionObject(doc.sections[COMPOSITE_TABLES[i]]))))
  }

  ghost function Head(doc: Document): seq<Member> {
    [Member("format", Str(COMPOSITE_FORMAT)), Member("table", Str(doc.table))]
  }

  lemma HeadInOrder(doc: Document)
    ensures InOrder(Head(doc))
  {}

  /** The document's top level is in enumeration order, and holds exactly its non-empty sections. */
  lemma {:induction false} TopLevel(doc: Document, n: nat)
    requires n <= |COMPOSITE_TABLES|
    ensures InOrder(Head(doc) + SectionMembers(doc, n))
    ensures forall x :: x in SectionMembers(doc, n) <==>
      exists i :: 0 <= i < n && Holds(doc, i) && x == SectionMember(doc, i)
  {
    hide InOrder, Canonical, SectionObject, JsonText.Before, Head;
    if n == 0 {
      HeadInOrder(doc);
      assert Head(doc) + SectionMembers(doc, 0) == Head(doc);
    } else {
      TopLevel(doc, n - 1);
      var before := SectionMembers(doc, n - 1);
      if Holds(doc, n - 1) {
        var last := SectionMember(doc, n - 1);
        assert SectionMembers(doc, n) == before + [last];
        assert Head(doc) + SectionMembers(doc, n) == Head(doc) + before + [last];
        LaterTable(doc, n - 1);
        InOrderSnoc(Head(doc) + before, last);
      }
    }
  }

  lemma {:induction false} LaterTable(doc: Document, n: nat)
    requires n < |COMPOSITE_TABLES|
    requires forall x :: x in SectionMembers(doc, n) ==>
      exists i :: 0 <= i < n && Holds(doc, i) && x == SectionMember(doc, i)
    ensures AllBefore(Head(doc) + SectionMembers(doc, n), COMPOSITE_TABLES[n])
  {
    hide Canonical, SectionObject, SectionMembers;
    TableNames();
    assert COMPOSITE_TABLES[n] in COMPOSITE_TABLES;
    forall m | m in Head(doc) + SectionMembers(doc, n)
      ensures m.key != COMPOSITE_TABLES[n] && JsonText.Before(m.key, COMPOSITE_TABLES[n])
    {
      if m in SectionMembers(doc, n) {
        var i :| 0 <= i < n && Holds(doc, i) && m == SectionMember(doc, i);
      }
    }
  }

  lemma {:induction false} SectionIsNormal(canon: string -> Option<string>, section: Section)
    requires ValidSection(canon, section)
    ensures Normal(canon, Obj(Canonical(SectionObject(section))))
  {
    hide Canonical, SafeComponent, NormalMap;
    forall k | k in SectionObject(section) ensures Normal(canon, SectionObject(section)[k]) {
      CanonicalIsNormal(canon, section[k]);
    }
    assert NormalMap(canon, SectionObject(section)) by { AllNormal(canon, SectionObject(section)); }
    CanonicalIsNormal(canon, SectionObject(section));
  }

  lemma AllNormal(canon: string -> Option<string>, m: map<string, Json>)
    requires forall k :: k in m ==> Normal(canon, m[k])
    ensures NormalMap(canon, m)
  {}

  lemma {:induction false} DocumentIsNormal(canon: string -> Option<string>, doc: Document)
    requires ValidDocument(canon, doc)
    ensures Normal(canon, Obj(DocumentMembers(doc)))
  {
    hide InOrder, SectionMembers, Canonical, SectionObject, ValidSection;
    TopLevel(doc, |COMPOSITE_TABLES|);
    var members := DocumentMembers(doc);
    assert members == Head(doc) + SectionMembers(doc, |COMPOSITE_TABLES|);
    forall i | 0 <= i < |members| ensures Normal(canon, members[i].value) {
      if i >= 2 {
        var m := members[i];
        assert m in SectionMembers(doc, |COMPOSITE_TABLES|);
        var t :| 0 <= t < |COMPOSITE_TABLES| && Holds(doc, t) && m == SectionMember(doc, t);
        SectionIsNormal(canon, doc.sections[COMPOSITE_TABLES[t]]);
      }
    }
  }

  /** What the parser finds at the top level of a serialized document. */
  ghost predicate TopLevelOf(obj: map<string, Json>, doc: Document) {
    && "format" in obj && obj["format"] == Str(COMPOSITE_FORMAT)
    && "table" in obj && obj["table"] == Str(doc.table)
    && (forall k :: k in obj ==> k in {"format", "table"} || k in COMPOSITE_TABLES)
    && (forall i :: 0 <= i < |COMPOSITE_TABLES| ==>
          (COMPOSITE_TABLES[i] in obj <==> Holds(doc, i))
          && (Holds(doc, i) ==>
                obj[COMPOSITE_TABLES[i]] ==
                  Obj(SettleMembers(Canonical(SectionObject(doc.sections[COMPOSITE_TABLES[i]]))))))
  }

  lemma {:induction false} TopLevelReads(doc: Document)
    ensures InOrder(DocumentMembers(doc))
    ensures TopLevelOf(SettleMap(ToMap(DocumentMembers(doc))), doc)
  {
    hide InOrder, SectionMembers, Canonical, SectionObject, Lookup, ToMap, IndexOfKey;
    TopLevel(doc, |COMPOSITE_TABLES|);
    var members := DocumentMembers(doc);
    assert members == Head(doc) + SectionMembers(doc, |COMPOSITE_TABLES|);
    assert members[0] in members && members[1] in members;
    ToMapGives(members, members[0]);
    ToMapGives(members, members[1]);
    TopLevelKeys(doc);
    forall i | 0 <= i < |COMPOSITE_TABLES|
      ensures COMPOSITE_TABLES[i] in ToMap(members) <==> Holds(doc, i)
      ensures Holds(doc, i) ==> ToMap(members)[COMPOSITE_TABLES[i]] == SectionMember(doc, i).value
    {
      TopLevelSection(doc, i);
    }
  }

  lemma {:induction false} TopLevelKeys(doc: Document)
    ensures forall k :: k in ToMap(DocumentMembers(doc)) ==> k in {"format", "table"} || k in COMPOSITE_TABLES
  {
    hide InOrder, SectionMembers, Canonical, SectionObject, Lookup, ToMap, IndexOfKey;
    TopLevel(doc, |COMPOSITE_TABLES|);
    var members := DocumentMembers(doc);
    ToMapKeys(members);
    forall k | k in ToMap(members) ensures k in {"format", "table"} || k in COMPOSITE_TABLES {
      var m :| m in members && m.key == k;
      if m in SectionMembers(doc, |COMPOSITE_TABLES|) {
        var t :| 0 <= t < |COMPOSITE_TABLES| && Holds(doc, t) && m == SectionMember(doc, t);
      }
    }
  }

  lemma {:induction false} TopLevelSection(doc: Document, i: nat)
    requires i < |COMPOSITE_TABLES|
    ensures var obj := ToMap(DocumentMembers(doc));
      && (COMPOSITE_TABLES[i] in obj <==> Holds(doc, i))
      && (Holds(doc, i) ==> obj[COMPOSITE_TABLES[i]] == SectionMember(doc, i).value)
  {
    hide InOrder, SectionMembers, Canonical, SectionObject, Lookup, ToMap, IndexOfKey;
    TopLevel(doc, |COMPOSITE_TABLES|);
    TableNames();
    var members := DocumentMembers(doc);
    assert members == Head(doc) + SectionMembers(doc, |COMPOSITE_TABLES|);
    ToMapKeys(members);
    if Holds(doc, i) {
      assert SectionMember(doc, i) in members;
      ToMapGives(members, SectionMember(doc, i));
    }
    if COMPOSITE_TABLES[i] in ToMap(members) {
      var m :| m in members && m.key == COMPOSITE_TABLES[i];
      assert m in SectionMembers(doc, |COMPOSITE_TABLES|);
    }
  }

  lemma ToMapKeys(members: seq<Member>)
    ensures forall k :: k in ToMap(members) <==> exists m :: m in members && m.key == k
  {}

  lemma {:induction false} SectionStep(
      canon: string -> Option<string>, obj: map<string, Json>, doc: Document, n: nat)
    requires n < |COMPOSITE_TABLES| && ValidDocument(canon, doc) && TopLevelOf(obj, doc)
    requires ReadSections(obj, n).Accepted?
    ensures ReadSections(obj, n + 1) ==
      if Holds(doc, n) then
        Accepted(ReadSections(obj, n).value[COMPOSITE_TABLES[n] := SettleSection(doc.sections[COMPOSITE_TABLES[n]])])
      else ReadSections(obj, n)
  {
    hide Canonical, SectionObject, ReadEntries, SettleSection, ValidSection, SettleMembers;
    if Holds(doc, n) {
      SectionReadsBack(canon, COMPOSITE_TABLES[n], doc.sections[COMPOSITE_TABLES[n]]);
    }
  }

  /** The sections read from the first `n` tables. */
  ghost predicate ReadUpTo(sections: map<string, Section>, doc: Document, n: nat)
    requires n <= |COMPOSITE_TABLES|
  {
    && (forall t :: t in sections <==> exists i :: 0 <= i < n && COMPOSITE_TABLES[i] == t && Holds(doc, i))
    && (forall t :: t in sections ==> t in doc.sections && sections[t] == SettleSection(doc.sections[t]))
  }

  lemma {:induction false} ReadUpToNext(sections: map<string, Section>, doc: Document, n: nat)
    requires n < |COMPOSITE_TABLES| && ReadUpTo(sections, doc, n)
    ensures ReadUpTo(
      if Holds(doc, n) then sections[COMPOSITE_TABLES[n] := SettleSection(doc.sections[COMPOSITE_TABLES[n]])]
      else sections, doc, n + 1)
  {
    hide SettleSection;
    var next := if Holds(doc, n) then sections[COMPOSITE_TABLES[n] := SettleSection(doc.sections[COMPOSITE_TABLES[n]])]
      else sections;
    forall t ensures t in next <==> exists i :: 0 <= i < n + 1 && COMPOSITE_TABLES[i] == t && Holds(doc, i) {
      if t in sections {
        var i :| 0 <= i < n && COMPOSITE_TABLES[i] == t && Holds(doc, i);
      }
    }
  }

  lemma {:induction false} SectionsReadBack(
      canon: string -> Option<string>, obj: map<string, Json>, doc: Document, n: nat)
    requires n <= |COMPOSITE_TABLES| && ValidDocument(canon, doc) && TopLevelOf(obj, doc)
    ensures ReadSections(obj, n).Accepted? && ReadUpTo(ReadSections(obj, n).value, doc, n)
  {
    hide SettleSection, ValidDocument, TopLevelOf, Holds;
    if n > 0 {
      SectionsReadBack(canon, obj, doc, n - 1);
      SectionStep(canon, obj, doc, n - 1);
      ReadUpToNext(ReadSections(obj, n - 1).value, doc, n - 1);
    }
  }

  lemma {:induction false} AllRead(canon: string -> Option<string>, sections: map<string, Section>, doc: Document)
    requires ValidDocument(canon, doc) && ReadUpTo(sections, doc, |COMPOSITE_TABLES|)
    ensures Document(doc.table, sections) == AsWritten(doc)
  {
    hide SettleSection, ValidSection;
    forall t ensures t in sections <==> t in AsWritten(doc).sections {
      if t in AsWritten(doc).sections {
        var i :| 0 <= i < |COMPOSITE_TABLES| && COMPOSITE_TABLES[i] == t;
        assert Holds(doc, i);
      }
    }
  }

  lemma {:induction false} FromTopLevel(
      canon: string -> Option<string>, text: string, members: seq<Member>, doc: Document)
    requires ValidDocument(canon, doc)
    requires Parse(canon, StripBOM(text)) == Some(Obj(members)) && TopLevelOf(ToMap(members), doc)
    ensures ParseDocument(canon, text, doc.table) == Accepted(AsWritten(doc))
  {
    hide Parse, ToMap, ReadSections, ReadUpTo, AsWritten, ValidDocument, Holds, SettleMembers, Canonical,
      SectionObject, StripBOM;
    SectionsReadBack(canon, ToMap(members), doc, |COMPOSITE_TABLES|);
    AllRead(canon, ReadSections(ToMap(members), |COMPOSITE_TABLES|).value, doc);
  }

  /** Parsing a document's own text gives it back, without its empty sections. */
  lemma {:induction false} ParseOfSerialize(canon: string -> Option<string>, doc: Document)
    requires ValidDocument(canon, doc)
    ensures ParseDocument(canon, Serialize(doc), doc.table) == Accepted(AsWritten(doc))
  {
    hide ParseDocument, DocumentMembers, ValidDocument, TopLevelOf, Normal, InOrder, ToMap, Parse, Print,
      SettleMembers, StripBOM, AsWritten;
    var members := DocumentMembers(doc);
    DocumentIsNormal(canon, doc);
    ParseOfPrintedLine(canon, Obj(members), TwoSpace);
    NotBOM(members);
    TopLevelReads(doc);
    ToMapOfSettled(members);
    FromTopLevel(canon, Serialize(doc), SettleMembers(members), doc);
  }

  lemma NotBOM(members: seq<Member>)
    ensures StripBOM(Print(Obj(members), TwoSpace, 0) + "\n") == Print(Obj(members), TwoSpace, 0) + "\n"
  {}
}
