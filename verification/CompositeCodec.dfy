/** The document codec: its loops, and what its text determines. */
module CompositeCodec {
  import opened Collections
  import opened StringOrder
  import opened JsText
  import opened PathNames
  import opened JsonText
  import opened JsonRoundTrip
  import opened JsObjects
  import opened SettledObjects
  import opened CompositeDocument

  // --- What the text determines -----------------------------------------------

  lemma {:induction false} EntriesAreValid(canon: string -> Option<string>, table: string, members: seq<Member>)
    requires forall m :: m in members ==> Normal(canon, m.value)
    requires ReadEntries(table, members).Accepted?
    ensures ValidSection(canon, ReadEntries(table, members).value)
  {
    hide Normal, SafeComponent, ToMap, ValidSection;
    if members == [] {
      NothingIsValid(canon);
    } else {
      var n := |members| - 1;
      assert members[n] in members && forall m :: m in members[..n] ==> m in members;
      EntriesAreValid(canon, table, members[..n]);
      EntryIsNormal(canon, members[n].value);
      OneMoreIsValid(canon, ReadEntries(table, members[..n]).value, members[n].key, ToMap(members[n].value.members));
    }
  }

  lemma NothingIsValid(canon: string -> Option<string>)
    ensures ValidSection(canon, map[])
  {}

  lemma OneMoreIsValid(canon: string -> Option<string>, section: Section, name: string, entry: Entry)
    requires ValidSection(canon, section) && SafeComponent(name) && NormalMap(canon, entry)
    ensures ValidSection(canon, section[name := entry])
  {}

  lemma EntryIsNormal(canon: string -> Option<string>, v: Json)
    requires Normal(canon, v)
    ensures v.Obj? ==> NormalMap(canon, ToMap(v.members)) && forall m :: m in v.members ==> Normal(canon, m.value)
  {}

  lemma {:induction false} SectionsAreValid(canon: string -> Option<string>, obj: map<string, Json>, n: nat)
    requires n <= |COMPOSITE_TABLES| && NormalMap(canon, obj) && ReadSections(obj, n).Accepted?
    ensures forall t :: t in ReadSections(obj, n).value ==>
      t in COMPOSITE_TABLES && ValidSection(canon, ReadSections(obj, n).value[t])
  {
    hide Normal, ReadEntries, ValidSection;
    if n > 0 {
      SectionsAreValid(canon, obj, n - 1);
      var table := COMPOSITE_TABLES[n - 1];
      if table in obj {
        EntryIsNormal(canon, obj[table]);
        EntriesAreValid(canon, table, obj[table].members);
      }
    }
  }

  /** A document that parses is named after its table, and holds only safe record names and values JSON can give. */
  lemma {:induction false} ParsedIsValid(canon: string -> Option<string>, text: string, expected: string)
    requires Doubles(canon) && ParseDocument(canon, text, expected).Accepted?
    ensures var doc := ParseDocument(canon, text, expected).value;
      doc.table == expected && ValidDocument(canon, doc)
  {
    hide ReadSections, ValidSection, Value, ToMap, Normal, StripBOM, NormalMap;
    ValueIsNormal(canon, SkipWs(StripBOM(text)));
    var v := Parse(canon, StripBOM(text)).value;
    EntryIsNormal(canon, v);
    SectionsAreValid(canon, ToMap(v.members), |COMPOSITE_TABLES|);
  }

  /** Two documents have the same text exactly when they hold the same records. */
  lemma {:induction false} TextIsTheRecords(canon: string -> Option<string>, a: Document, b: Document)
    requires ValidDocument(canon, a) && ValidDocument(canon, b) && a.table == b.table
    ensures Serialize(a) == Serialize(b) <==> AsWritten(a) == AsWritten(b)
  {
    hide ParseDocument, Serialize, ValidDocument, AsWritten;
    ParseOfSerialize(canon, a);
    ParseOfSerialize(canon, b);
    if AsWritten(a) == AsWritten(b) {
      SerializeAsWritten(a);
      SerializeAsWritten(b);
    }
  }

  /** Writing, reading and writing again gives the same bytes. */
  lemma {:induction false} SerializeIsStable(canon: string -> Option<string>, doc: Document)
    requires ValidDocument(canon, doc)
    ensures var again := ParseDocument(canon, Serialize(doc), doc.table);
      again.Accepted? && Serialize(again.value) == Serialize(doc)
      && ParseDocument(canon, Serialize(again.value), doc.table) == again
  {
    hide ParseDocument, Serialize, ValidDocument, AsWritten;
    ParseOfSerialize(canon, doc);
    SerializeAsWritten(doc);
  }

  lemma {:induction false} SettleSectionObject(section: Section)
    ensures SectionObject(SettleSection(section)) == SettleMap(SectionObject(section))
  {
    hide Canonical, Settle;
    forall name | name in section
      ensures SectionObject(SettleSection(section))[name] == SettleMap(SectionObject(section))[name]
    {
      SettleOfCanonical(section[name]);
    }
  }

  lemma {:induction false} SettleDocumentMembers(doc: Document, n: nat)
    requires n <= |COMPOSITE_TABLES|
    ensures SectionMembers(AsWritten(doc), n) == SettleMembers(SectionMembers(doc, n))
  {
    hide Canonical, SectionObject, SettleSection, Settle, SettleMembers;
    if n == 0 {
      SettleNothing();
    } else {
      SettleDocumentMembers(doc, n - 1);
      if Holds(doc, n - 1) {
        SettleSnoc(SectionMembers(doc, n - 1), SectionMember(doc, n - 1));
        var section := doc.sections[COMPOSITE_TABLES[n - 1]];
        SettleNonEmpty(section);
        SettleSectionObject(section);
        SettleOfCanonical(SectionObject(section));
      }
    }
  }

  lemma SettleNothing()
    ensures SettleMembers([]) == []
  {}

  lemma SettleNonEmpty(section: Section)
    ensures section != map[] ==> SettleSection(section) != map[]
  {}

  lemma {:induction false} SerializeAsWritten(doc: Document)
    ensures Serialize(AsWritten(doc)) == Serialize(doc)
  {
    hide SectionMembers, Print;
    SettleDocumentMembers(doc, |COMPOSITE_TABLES|);
    SettleHead(doc);
    SettleMembersConcat(Head(doc), SectionMembers(doc, |COMPOSITE_TABLES|));
    PrintOfSettle(Obj(DocumentMembers(doc)), TwoSpace, 0);
  }

  lemma {:induction false} SettleHead(doc: Document)
    ensures SettleMembers(Head(doc)) == Head(doc) == Head(AsWritten(doc))
  {
    SettleMembersAt(Head(doc));
  }

  /** Entries compare by their canonical text, which is their contents. */
  lemma {:induction false} EntryTextIdentifies(canon: string -> Option<string>, a: Entry, b: Entry)
    requires NormalMap(canon, a) && NormalMap(canon, b)
    ensures EntryText(a) == EntryText(b) <==> SettleMap(a) == SettleMap(b)
  {
    hide Print, Canonical, NormalMap, SettleMap, Normal, Parse, Settle, ToMap;
    EntryTextReads(canon, a);
    EntryTextReads(canon, b);
    if SettleMap(a) == SettleMap(b) {
      EntryTextSettles(a);
      EntryTextSettles(b);
    }
  }

  lemma {:induction false} EntryTextReads(canon: string -> Option<string>, a: Entry)
    requires NormalMap(canon, a)
    ensures var v := Parse(canon, EntryText(a)); v.Some? && v.value.Obj? && ToMap(v.value.members) == SettleMap(a)
  {
    hide Print, Canonical, NormalMap, SettleMap, Normal, Parse, ToMap;
    CanonicalIsNormal(canon, a);
    ParseOfPrintedLine(canon, Obj(Canonical(a)), TwoSpace);
    SettleOfCanonical(a);
    ToMapOfCanonical(SettleMap(a));
  }

  lemma {:induction false} EntryTextSettles(a: Entry)
    ensures EntryText(SettleMap(a)) == EntryText(a)
  {
    hide Print, Canonical, SettleMap;
    SettleOfCanonical(a);
    PrintOfSettle(Obj(Canonical(a)), TwoSpace, 0);
  }

  // --- The loops --------------------------------------------------------------

  /** Reads a document section by section, record by record. */
  method ParseCompositeDocument(canon: string -> Option<string>, text: string, expected: string)
    returns (r: Read<Document>)
    ensures r == ParseDocument(canon, text, expected)
  {
    hide ReadEntries, ToMap, Parse, StripBOM;
    var parsed := Parse(canon, StripBOM(text));
    if parsed.None? { return Refused(NotJson); }
    if !parsed.value.Obj? { return Refused(NotAnObject); }
    var obj := ToMap(parsed.value.members);
    if "format" !in obj || obj["format"] != Str(COMPOSITE_FORMAT) { return Refused(WrongFormat); }
    if "table" !in obj || obj["table"] != Str(expected) { return Refused(WrongTable); }
    if exists k :: k in obj && k !in {"format", "table"} && k !in COMPOSITE_TABLES { return Refused(UnknownKeys); }
    var sections: map<string, Section> := map[];
    for n := 0 to |COMPOSITE_TABLES|
      invariant ReadSections(obj, n) == Accepted(sections)
    {
      var table := COMPOSITE_TABLES[n];
      if table in obj {
        if !obj[table].Obj? {
          StopsAtSection(obj, n + 1, |COMPOSITE_TABLES|);
          return Refused(BadSection(table));
        }
        var entries := ParseSection(table, obj[table].members);
        if entries.Refused? {
          StopsAtSection(obj, n + 1, |COMPOSITE_TABLES|);
          return Refused(entries.reason);
        }
        sections := sections[table := entries.value];
      }
    }
    r := Accepted(Document(expected, sections));
  }

  lemma StopsAtSection(obj: map<string, Json>, n: nat, m: nat)
    requires n <= m <= |COMPOSITE_TABLES| && ReadSections(obj, n).Refused?
    ensures ReadSections(obj, m) == ReadSections(obj, n)
  {}

  method ParseSection(table: string, members: seq<Member>) returns (r: Read<Section>)
    ensures r == ReadEntries(table, members)
  {
    hide ToMap, SafeComponent;
    var entries: Section := map[];
    for n := 0 to |members|
      invariant ReadEntries(table, members[..n]) == Accepted(entries)
    {
      var m := members[n];
      assert members[..n + 1][..n] == members[..n];
      if !SafeComponent(m.key) {
        StopsAtEntry(table, members, n + 1);
        return Refused(BadName(table, m.key));
      }
      if !m.value.Obj? {
        StopsAtEntry(table, members, n + 1);
        return Refused(BadEntry(table, m.key));
      }
      entries := entries[m.key := ToMap(m.value.members)];
    }
    assert members[..|members|] == members;
    r := Accepted(entries);
  }

  lemma {:induction false} StopsAtEntry(table: string, members: seq<Member>, n: nat)
    requires n <= |members| && ReadEntries(table, members[..n]).Refused?
    ensures ReadEntries(table, members) == ReadEntries(table, members[..n])
    decreases |members|
  {
    hide ToMap, SafeComponent;
    if n == |members| {
      assert members[..n] == members;
    } else {
      var front := members[..|members| - 1];
      assert front[..n] == members[..n];
      StopsAtEntry(table, front, n);
    }
  }

  /** The sections of a document as objects, in whatever order their records and columns came. */
  predicate ObjectOfObjects(members: seq<Member>) {
    forall m :: m in members ==> m.value.Obj?
  }

  ghost predicate WellFormedSection(section: seq<Member>) {
    InOrder(section) && ObjectOfObjects(section) && forall m :: m in section ==> InOrder(m.value.members)
  }

  ghost predicate WellFormed(sections: map<string, seq<Member>>) {
    forall t :: t in sections ==> WellFormedSection(sections[t])
  }

  function SectionContents(section: seq<Member>): Section
    requires ObjectOfObjects(section)
  {
    map name | name in KeySet(section) :: ToMap(Lookup(section, name).value.members)
  }

  ghost function Contents(table: string, sections: map<string, seq<Member>>): Document
    requires WellFormed(sections)
  {
    Document(table, map t | t in sections :: SectionContents(sections[t]))
  }

  /** The text depends on the records alone, not on the order they were put in. */
  method SerializeCompositeDocument(table: string, sections: map<string, seq<Member>>) returns (text: string)
    requires WellFormed(sections)
    ensures text == Serialize(Contents(table, sections))
  {
    hide Print, Canonical, SectionObject, SectionContents, InOrder, ObjectOfObjects;
    var out := [Member("format", Str(COMPOSITE_FORMAT)), Member("table", Str(table))];
    ghost var doc := Contents(table, sections);
    for n := 0 to |COMPOSITE_TABLES|
      invariant out == Head(doc) + SectionMembers(doc, n)
    {
      var name := COMPOSITE_TABLES[n];
      if name in sections {
        EmptySection(sections[name]);
        if sections[name] != [] {
          var sorted := SortSection(sections[name]);
          out := out + [Member(name, Obj(sorted))];
        }
      }
    }
    text := Pretty(Obj(out)) + "\n";
  }

  lemma {:induction false} EmptySection(section: seq<Member>)
    requires ObjectOfObjects(section)
    ensures SectionContents(section) == map[] <==> section == []
  {
    if section != [] {
      assert section[0].key in KeySet(section);
      assert section[0].key in SectionContents(section);
    }
  }

  /** A section with its records, and each record's columns, in canonical order. */
  method SortSection(section: seq<Member>) returns (sorted: seq<Member>)
    requires InOrder(section) && ObjectOfObjects(section)
    requires forall m :: m in section ==> InOrder(m.value.members)
    ensures sorted == Canonical(SectionObject(SectionContents(section)))
  {
    hide InOrder, Put, Lookup, SortedKeys, Sort, ToMap, KeySet, KeysOf, SectionObject, SectionContents, Canonical;
    SectionKeys(section);
    var keys := Sort(KeysOf(section));
    ghost var contents := SectionObject(SectionContents(section));
    sorted := [];
    for i := 0 to |keys|
      invariant sorted == PutAll(keys[..i], contents)
    {
      assert keys[..i + 1][..i] == keys[..i];
      assert keys[i] in keys;
      var entry := Lookup(section, keys[i]).value;
      var copy := SortedCopy(entry.members);
      sorted := Put(sorted, Member(keys[i], Obj(copy)));
    }
    assert keys[..|keys|] == keys;
    IsCanonical(contents);
  }

  lemma IsCanonical(m: map<string, Json>)
    ensures Canonical(m) == PutAll(SortedKeys(m.Keys), m)
  {}

  lemma {:induction false} SectionKeys(section: seq<Member>)
    requires InOrder(section) && ObjectOfObjects(section)
    ensures var contents := SectionObject(SectionContents(section));
      && Sort(KeysOf(section)) == SortedKeys(contents.Keys)
      && forall k :: k in Sort(KeysOf(section)) ==>
           && k in contents && Lookup(section, k).Some? && Lookup(section, k).value.Obj?
           && Member(k, Lookup(section, k).value) in section
           && contents[k] == Obj(Canonical(ToMap(Lookup(section, k).value.members)))
  {
    hide InOrder, Lookup, Sort, KeySet, KeysOf, Canonical, SortedKeys;
    KeysMatch(section);
    assert SectionObject(SectionContents(section)).Keys == ToMap(section).Keys;
    forall k | k in Sort(KeysOf(section))
      ensures Lookup(section, k).Some? && Member(k, Lookup(section, k).value) in section
        && Lookup(section, k).value.Obj?
    {
      var m := Member(k, Lookup(section, k).value);
      assert m in section && m.value.Obj?;
    }
  }
}
