/** The document store as the merge updates it, file by file. */
module CompositeStore {
  import opened Collections
  import opened StringOrder
  import opened JsText
  import opened PathNames
  import opened JsonText
  import opened JsonRoundTrip
  import opened JsObjects
  import opened SettledObjects
  import opened CompositeDocument
  import opened CompositeReading
  import opened CompositeCodec
  import opened CompositeMerge

  /** One element of a batch: the record it is for, and the text that would be its own sidecar file. */
  datatype Write = Write(key: Key, content: string)

  function EntryOf(canon: string -> Option<string>, content: string): Option<Entry> {
    var parsed := Parse(canon, StripBOM(content));
    if parsed.Some? && parsed.value.Obj? then Some(ToMap(parsed.value.members)) else None
  }

  /** A sidecar text is an entry exactly when it is JSON for an object, and the entry holds its columns. */
  lemma {:induction false} EntryExactlyWhen(canon: string -> Option<string>, content: string, body: string)
    requires Doubles(canon) && MarkAside(content, body)
    ensures var parsed := Parse(canon, body);
      && (EntryOf(canon, content).Some? <==> parsed.Some? && parsed.value.Obj?)
      && (EntryOf(canon, content).Some? ==> Keeps(EntryOf(canon, content).value, parsed.value.members))
  {
    hide Parse, Keeps, ToMap, InOrder;
    assert StripBOM(content) == body;
    var parsed := Parse(canon, body);
    if parsed.Some? && parsed.value.Obj? {
      ParsedIsNormal(canon, body);
      MapKeeps(parsed.value.members);
    }
  }

  ghost predicate Distinctly(writes: seq<Write>) {
    forall i, j :: 0 <= i < j < |writes| ==> writes[i].key != writes[j].key
  }

  /** The batch as a map; writes whose content is no entry are left out. */
  function ToBatch(canon: string -> Option<string>, writes: seq<Write>): Batch {
    if writes == [] then map[]
    else
      var w := writes[|writes| - 1];
      var before := ToBatch(canon, writes[..|writes| - 1]);
      var entry := EntryOf(canon, w.content);
      if entry.None? then before else before[w.key := entry.value]
  }

  lemma {:induction false} BatchHolds(canon: string -> Option<string>, writes: seq<Write>)
    requires Distinctly(writes)
    ensures forall k :: k in ToBatch(canon, writes) <==>
      exists w :: w in writes && w.key == k && EntryOf(canon, w.content).Some?
    ensures forall w :: w in writes && EntryOf(canon, w.content).Some? ==>
      w.key in ToBatch(canon, writes) && ToBatch(canon, writes)[w.key] == EntryOf(canon, w.content).value
  {
    hide EntryOf;
    if writes != [] {
      var front, last := writes[..|writes| - 1], writes[|writes| - 1];
      BatchHolds(canon, front);
      LastIsNew(front, last, writes);
    }
  }

  lemma {:induction false} LastIsNew(front: seq<Write>, last: Write, writes: seq<Write>)
    requires writes == front + [last] && Distinctly(writes)
    ensures forall w :: w in front ==> w.key != last.key
    ensures forall w :: w in writes <==> w in front || w == last
  {
    forall w | w in front ensures w.key != last.key {
      var i :| 0 <= i < |front| && front[i] == w;
      assert writes[i] == w && writes[|front|] == last;
    }
  }

  /** The order of a batch does not matter: what is merged is a map. */
  lemma {:induction false} BatchHasNoOrder(canon: string -> Option<string>, a: seq<Write>, b: seq<Write>)
    requires Distinctly(a) && Distinctly(b) && forall w :: w in a <==> w in b
    ensures ToBatch(canon, a) == ToBatch(canon, b)
  {
    hide EntryOf, ToBatch;
    BatchHolds(canon, a);
    BatchHolds(canon, b);
    forall k ensures k in ToBatch(canon, a) <==> k in ToBatch(canon, b) {
      if k in ToBatch(canon, a) {
        var w :| w in a && w.key == k && EntryOf(canon, w.content).Some?;
        assert w in b;
      }
      if k in ToBatch(canon, b) {
        var w :| w in b && w.key == k && EntryOf(canon, w.content).Some?;
        assert w in a;
      }
    }
    forall k | k in ToBatch(canon, a) ensures ToBatch(canon, a)[k] == ToBatch(canon, b)[k] {
      var w :| w in a && w.key == k && EntryOf(canon, w.content).Some?;
      assert w in b;
    }
  }

  lemma {:induction false} EntryIsNormalMap(canon: string -> Option<string>, content: string)
    requires Doubles(canon) && EntryOf(canon, content).Some?
    ensures NormalMap(canon, EntryOf(canon, content).value)
  {
    hide Value, Normal, NormalMap, ToMap, StripBOM;
    ValueIsNormal(canon, SkipWs(StripBOM(content)));
    EntryIsNormal(canon, Parse(canon, StripBOM(content)).value);
  }

  // --- When a batch is taken --------------------------------------------------

  /** The record may be placed: no sidecar of its own, a safe name, an entry, and a document for it. */
  ghost predicate Takes(canon: string -> Option<string>, docs: Documents, w: Write) {
    && SafeComponent(w.key.record)
    && EntryOf(canon, w.content).Some?
    && GroupOf(canon, docs, w.key, EntryOf(canon, w.content).value).Some?
  }

  ghost predicate Admits(
      canon: string -> Option<string>, docs: Documents, sidecars: set<Key>, writes: seq<Write>)
  {
    && (forall w :: w in writes ==> w.key !in sidecars)
    && Loads(canon, docs)
    && (forall w :: w in writes ==> Takes(canon, docs, w))
  }

  lemma {:induction false} AdmittedIsPlaceable(
      canon: string -> Option<string>, docs: Documents, sidecars: set<Key>, writes: seq<Write>)
    requires Doubles(canon) && Distinctly(writes) && Admits(canon, docs, sidecars, writes)
    requires forall w :: w in writes ==> w.key.table in COMPOSITE_TABLES
    ensures Loads(canon, docs) && Placeable(canon, docs, ToBatch(canon, writes))
  {
    hide EntryOf, ToBatch, GroupOf, SafeComponent, NormalMap;
    BatchHolds(canon, writes);
    var batch := ToBatch(canon, writes);
    forall k | k in batch
      ensures k.table in COMPOSITE_TABLES && SafeComponent(k.record) && NormalMap(canon, batch[k])
        && GroupOf(canon, docs, k, batch[k]).Some?
    {
      var w :| w in writes && w.key == k && EntryOf(canon, w.content).Some?;
      EntryIsNormalMap(canon, w.content);
    }
  }

  // --- Merging into one document ----------------------------------------------

  /** The same records with the same entries. */
  ghost predicate SameEntries(a: Document, b: Document) {
    && a.table == b.table
    && (forall k :: HasEntry(a, k) <==> HasEntry(b, k))
    && (forall k :: HasEntry(a, k) && HasEntry(b, k) ==> EntryIn(a, k) == EntryIn(b, k))
  }

  lemma {:induction false} SameEntriesSameText(a: Document, b: Document)
    requires SameEntries(a, b)
    ensures Serialize(a) == Serialize(b)
  {
    hide Serialize, SettleMap;
    SameSections(a, b);
    SameSections(b, a);
    assert AsWritten(a).sections == AsWritten(b).sections;
    SerializeAsWritten(a);
    SerializeAsWritten(b);
  }

  lemma {:induction false} SameSections(a: Document, b: Document)
    requires SameEntries(a, b)
    ensures forall t :: t in a.sections && a.sections[t] != map[] ==>
      t in b.sections && b.sections[t] == a.sections[t]
  {
    forall t | t in a.sections && a.sections[t] != map[]
      ensures t in b.sections && b.sections[t] == a.sections[t]
    {
      var r :| r in a.sections[t];
      assert HasEntry(a, Key(t, r));
      forall x ensures x in a.sections[t] <==> x in b.sections[t] {
        assert HasEntry(a, Key(t, x)) <==> x in a.sections[t];
        assert HasEntry(b, Key(t, x)) <==> x in b.sections[t];
      }
      forall x | x in a.sections[t] ensures a.sections[t][x] == b.sections[t][x] {
        assert EntryIn(a, Key(t, x)) == EntryIn(b, Key(t, x));
      }
    }
  }

  function WithEntry(doc: Document, k: Key, entry: Entry): Document {
    var section := if k.table in doc.sections then doc.sections[k.table] else map[];
    doc.(sections := doc.sections[k.table := section[k.record := entry]])
  }

  lemma WithEntryHas(doc: Document, k: Key, entry: Entry)
    ensures WithEntry(doc, k, entry).table == doc.table
    ensures forall x :: HasEntry(WithEntry(doc, k, entry), x) <==> HasEntry(doc, x) || x == k
    ensures forall x :: HasEntry(WithEntry(doc, k, entry), x) ==>
      EntryIn(WithEntry(doc, k, entry), x) == if x == k then entry else EntryIn(doc, x)
  {}

  /** How far one document has got: the updates of `done` are in it. */
  ghost predicate Midway(doc: Document, before: Document, updates: Batch, done: set<Key>, force: bool) {
    && doc.table == before.table
    && (forall k :: HasEntry(doc, k) <==> HasEntry(before, k) || (k in done && k in updates))
    && (forall k :: HasEntry(doc, k) ==>
          EntryIn(doc, k) ==
            if k in done && k in updates then NewEntry(before, updates, force, k) else EntryIn(before, k))
  }

  /** One update left alone, or taken. */
  lemma {:induction false} MidwayNext(
      doc: Document, before: Document, updates: Batch, done: set<Key>, force: bool, k: Key)
    requires Midway(doc, before, updates, done, force) && k in updates && k !in done
    ensures Replaces(before, k, updates[k], force) <==> Replaces(doc, k, updates[k], force)
    ensures Midway(if Replaces(doc, k, updates[k], force) then WithEntry(doc, k, updates[k]) else doc,
              before, updates, done + {k}, force)
  {
    hide EntryText, WithEntry, HasEntry;
    WithEntryHas(doc, k, updates[k]);
  }

  /** Merges the updates into the document, in any order, and says whether an entry changed. */
  method MergeInto(before: Document, updates: Batch, force: bool) returns (doc: Document, changed: bool)
    ensures SameEntries(doc, Applied(before, updates, force))
    ensures changed <==> Changes(before, updates, force)
  {
    hide EntryText, Applied, WithEntry, HasEntry, Midway, NewEntry, SameEntries;
    doc, changed := before, false;
    var rest := updates.Keys;
    MidwayStart(before, updates, force);
    while rest != {}
      invariant rest <= updates.Keys
      invariant Midway(doc, before, updates, updates.Keys - rest, force)
      invariant changed <==> exists k :: k in updates.Keys - rest && Replaces(before, k, updates[k], force)
      decreases |rest|
    {
      var k :| k in rest;
      MidwayNext(doc, before, updates, updates.Keys - rest, force, k);
      assert updates.Keys - (rest - {k}) == updates.Keys - rest + {k};
      rest := rest - {k};
      if HasEntry(doc, k) && (!force || EntryText(EntryIn(doc, k)) == EntryText(updates[k])) {
        continue;
      }
      doc := WithEntry(doc, k, updates[k]);
      changed := true;
    }
    assert updates.Keys - {} == updates.Keys;
    MidwayIsApplied(doc, before, updates, force);
  }

  lemma MidwayStart(before: Document, updates: Batch, force: bool)
    ensures Midway(before, before, updates, updates.Keys - updates.Keys, force)
  {}

  lemma {:induction false} MidwayIsApplied(doc: Document, before: Document, updates: Batch, force: bool)
    requires Midway(doc, before, updates, updates.Keys, force)
    ensures SameEntries(doc, Applied(before, updates, force))
  {
    hide NewEntry, Applied, HasEntry;
    AppliedSections(before, updates, force);
    forall k
      ensures HasEntry(doc, k) <==> HasEntry(Applied(before, updates, force), k)
      ensures HasEntry(doc, k) ==> EntryIn(doc, k) == EntryIn(Applied(before, updates, force), k)
    {
      AppliedHas(before, updates, force, k);
      NewEntryOutside(before, updates, force, k);
    }
  }

  lemma NewEntryOutside(before: Document, updates: Batch, force: bool, k: Key)
    ensures k !in updates && HasEntry(before, k) ==> NewEntry(before, updates, force, k) == EntryIn(before, k)
  {}

  // --- The index --------------------------------------------------------------

  function EntryKeys(doc: Document): (keys: set<Key>)
    ensures forall k :: k in keys <==> HasEntry(doc, k)
  {
    set t, r | t in doc.sections && r in doc.sections[t] :: Key(t, r)
  }

  /** The index tells, for each record a document holds, which one. */
  ghost predicate IndexIs(canon: string -> Option<string>, docs: Documents, index: map<Key, string>) {
    && (forall g, k :: Held(canon, docs, g, k) ==> k in index && index[k] == g)
    && (forall k :: k in index ==> Held(canon, docs, index[k], k))
  }

  lemma IndexedGroup(
      canon: string -> Option<string>, docs: Documents, index: map<Key, string>, k: Key, entry: Entry)
    requires IndexIs(canon, docs, index)
    ensures GroupOf(canon, docs, k, entry) == if k in index then Some(index[k]) else CompositeGroupFor(k.record, entry)
  {}

  /** Adds the entries of one document; none if another document already holds one of them. */
  method AddDocument(index: map<Key, string>, g: string, doc: Document) returns (r: Option<map<Key, string>>)
    ensures r.Some? <==> forall k :: HasEntry(doc, k) ==> k !in index
    ensures r.Some? ==> forall k :: k in r.value <==> k in index || HasEntry(doc, k)
    ensures r.Some? ==> forall k :: k in r.value ==> r.value[k] == if k in index then index[k] else g
  {
    hide HasEntry;
    var all := EntryKeys(doc);
    var rest := all;
    var next := index;
    while rest != {}
      invariant rest <= all
      invariant forall k :: k in all - rest ==> k !in index
      invariant forall k :: k in next <==> k in index || k in all - rest
      invariant forall k :: k in next ==> next[k] == if k in index then index[k] else g
      decreases |rest|
    {
      var k :| k in rest;
      rest := rest - {k};
      if k in next { return None; }
      next := next[k := g];
    }
    r := Some(next);
  }

  /** The part of the store made of the documents listed so far. */
  function Listed(docs: Documents, names: seq<string>): Documents {
    map g | g in docs && g in names :: docs[g]
  }

  /** Which document has which record; none if some text is no document or two of them claim one record. */
  method LoadCompositeIndex(canon: string -> Option<string>, docs: Documents) returns (index: Option<map<Key, string>>)
    ensures index.Some? <==> Loads(canon, docs)
    ensures index.Some? ==> IndexIs(canon, docs, index.value)
  {
    hide ParseDocument, HasEntry, Loads, IndexIs, SortedKeys;
    var names := SortedKeys(docs.Keys);
    SortedKeysSorted(docs.Keys);
    var found: map<Key, string> := map[];
    NothingListed(canon, docs);
    for n := 0 to |names|
      invariant Loads(canon, Listed(docs, names[..n])) && IndexIs(canon, Listed(docs, names[..n]), found)
    {
      var g := names[n];
      assert g in names;
      NextListed(docs, names, n);
      var doc := ParseCompositeDocument(canon, docs[g], g);
      if doc.Refused? {
        DoesNotLoad(canon, docs, g);
        return None;
      }
      var next := AddDocument(found, g, doc.value);
      ListsNext(canon, docs, names, n, found, doc.value, next);
      if next.None? { return None; }
      found := next.value;
    }
    AllListed(docs, names);
    index := Some(found);
  }

  lemma NothingListed(canon: string -> Option<string>, docs: Documents)
    ensures Loads(canon, Listed(docs, [])) && IndexIs(canon, Listed(docs, []), map[])
  {}

  lemma AllListed(docs: Documents, names: seq<string>)
    requires forall g :: g in docs ==> g in names
    ensures Listed(docs, names[..|names|]) == docs
  {}

  lemma NextListed(docs: Documents, names: seq<string>, n: nat)
    requires n < |names| && Distinct(names) && names[n] in docs
    ensures names[n] !in Listed(docs, names[..n])
    ensures Listed(docs, names[..n + 1]) == Listed(docs, names[..n])[names[n] := docs[names[n]]]
  {}

  lemma DoesNotLoad(canon: string -> Option<string>, docs: Documents, g: string)
    requires g in docs && !Parses(canon, docs, g)
    ensures !Loads(canon, docs)
  {}

  /** One more document: it keeps the index, or a record is held twice. */
  lemma {:induction false} ListsNext(
      canon: string -> Option<string>, docs: Documents, names: seq<string>, n: nat,
      index: map<Key, string>, doc: Document, next: Option<map<Key, string>>)
    requires n < |names| && Distinct(names) && names[n] in docs
    requires Loads(canon, Listed(docs, names[..n])) && IndexIs(canon, Listed(docs, names[..n]), index)
    requires ParseDocument(canon, docs[names[n]], names[n]) == Accepted(doc)
    requires next.Some? <==> forall k :: HasEntry(doc, k) ==> k !in index
    requires next.Some? ==> forall k :: k in next.value <==> k in index || HasEntry(doc, k)
    requires next.Some? ==> forall k :: k in next.value ==> next.value[k] == if k in index then index[k] else names[n]
    ensures next.Some? ==>
      Loads(canon, Listed(docs, names[..n + 1])) && IndexIs(canon, Listed(docs, names[..n + 1]), next.value)
    ensures next.None? ==> !Loads(canon, docs)
  {
    hide ParseDocument, HasEntry, Listed;
    var g := names[n];
    var before, after := Listed(docs, names[..n]), Listed(docs, names[..n + 1]);
    NextListed(docs, names, n);
    assert forall h, k :: Held(canon, after, h, k) <==> Held(canon, before, h, k) || (h == g && HasEntry(doc, k));
    if next.None? {
      var k :| HasEntry(doc, k) && k in index;
      ListedIsHeld(canon, docs, names[..n], index[k], k);
      assert Held(canon, docs, g, k);
      assert index[k] != g;
    }
  }

  lemma {:induction false} ListedIsHeld(
      canon: string -> Option<string>, docs: Documents, names: seq<string>, g: string, k: Key)
    requires Held(canon, Listed(docs, names), g, k)
    ensures Held(canon, docs, g, k)
  {
    hide ParseDocument, HasEntry;
  }

  // --- The plan ---------------------------------------------------------------

  /** The updates of each document a batch touches. */
  ghost predicate PlanIs(canon: string -> Option<string>, docs: Documents, batch: Batch, plan: map<string, Batch>) {
    && (forall g :: g in plan <==> g in Targets(canon, docs, batch))
    && (forall g :: g in plan ==> plan[g] == UpdatesFor(canon, docs, batch, g))
  }

  lemma {:induction false} PlanNext(
      canon: string -> Option<string>, docs: Documents, batch: Batch, plan: map<string, Batch>, k: Key, entry: Entry,
      g: string)
    requires PlanIs(canon, docs, batch, plan) && k !in batch && GroupOf(canon, docs, k, entry) == Some(g)
    ensures PlanIs(canon, docs, batch[k := entry],
              plan[g := (if g in plan then plan[g] else map[])[k := entry]])
  {
    hide GroupOf;
    var batch1 := batch[k := entry];
    if g !in plan {
      NoUpdates(canon, docs, batch, g);
    }
    UpdatesNext(canon, docs, batch, k, entry, g);
    hide UpdatesFor;
    forall h ensures h in Targets(canon, docs, batch1) <==> h in Targets(canon, docs, batch) || h == g {
      if h in Targets(canon, docs, batch) {
        var x :| x in batch && GroupOf(canon, docs, x, batch[x]) == Some(h);
        assert x in batch1 && batch1[x] == batch[x];
      }
      if h == g {
        assert k in batch1 && GroupOf(canon, docs, k, batch1[k]) == Some(g);
      }
      if h in Targets(canon, docs, batch1) {
        var x :| x in batch1 && GroupOf(canon, docs, x, batch1[x]) == Some(h);
        assert x != k ==> x in batch && batch[x] == batch1[x];
      }
    }
  }

  lemma {:induction false} UpdatesNext(
      canon: string -> Option<string>, docs: Documents, batch: Batch, k: Key, entry: Entry, g: string)
    requires k !in batch && GroupOf(canon, docs, k, entry) == Some(g)
    ensures UpdatesFor(canon, docs, batch[k := entry], g) == UpdatesFor(canon, docs, batch, g)[k := entry]
    ensures forall h :: h != g ==>
      UpdatesFor(canon, docs, batch[k := entry], h) == UpdatesFor(canon, docs, batch, h)
  {
    hide GroupOf;
  }

  lemma NoUpdates(canon: string -> Option<string>, docs: Documents, batch: Batch, g: string)
    requires g !in Targets(canon, docs, batch)
    ensures UpdatesFor(canon, docs, batch, g) == map[]
  {}

  /** Places every write, or refuses the batch. */
  method PlanWrites(
      canon: string -> Option<string>, docs: Documents, index: map<Key, string>, writes: seq<Write>)
    returns (plan: Option<map<string, Batch>>)
    requires IndexIs(canon, docs, index) && Distinctly(writes)
    ensures plan.Some? <==> forall w :: w in writes ==> Takes(canon, docs, w)
    ensures plan.Some? ==> PlanIs(canon, docs, ToBatch(canon, writes), plan.value)
  {
    hide IndexIs, PlanIs, GroupOf, EntryOf, CompositeGroupFor, SafeComponent;
    var byGroup: map<string, Batch> := map[];
    NothingPlanned(canon, docs);
    for n := 0 to |writes|
      invariant forall w :: w in writes[..n] ==> Takes(canon, docs, w)
      invariant PlanIs(canon, docs, ToBatch(canon, writes[..n]), byGroup)
    {
      var w := writes[n];
      assert w in writes;
      assert writes[..n + 1] == writes[..n] + [w] && writes[..n + 1][..n] == writes[..n];
      if !SafeComponent(w.key.record) { return None; }
      var entry := EntryOf(canon, w.content);
      if entry.None? { return None; }
      IndexedGroup(canon, docs, index, w.key, entry.value);
      var group := if w.key in index then Some(index[w.key]) else CompositeGroupFor(w.key.record, entry.value);
      if group.None? { return None; }
      NewToBatch(canon, writes, n);
      PlanNext(canon, docs, ToBatch(canon, writes[..n]), byGroup, w.key, entry.value, group.value);
      var list := if group.value in byGroup then byGroup[group.value] else map[];
      byGroup := byGroup[group.value := list[w.key := entry.value]];
    }
    assert writes[..|writes|] == writes;
    plan := Some(byGroup);
  }

  lemma NothingPlanned(canon: string -> Option<string>, docs: Documents)
    ensures PlanIs(canon, docs, map[], map[])
  {}

  lemma {:induction false} NewToBatch(canon: string -> Option<string>, writes: seq<Write>, n: nat)
    requires Distinctly(writes) && n < |writes|
    ensures writes[n].key !in ToBatch(canon, writes[..n])
  {
    hide EntryOf, ToBatch;
    BatchHolds(canon, writes[..n]);
  }

  // --- The merge --------------------------------------------------------------

  /** The documents of a merge that has dealt with some of its groups. */
  ghost predicate PartOf(canon: string -> Option<string>, docs: Documents, batch: Batch, force: bool, now: Documents) {
    exists reached :: reached <= Targets(canon, docs, batch) && now == Merged(canon, docs, batch, force, reached)
  }

  /**
    The states a merge passes through: from the documents before to those after, one
    document written at a time, and each of them a part of the merge.
   */
  ghost predicate Passes(
      canon: string -> Option<string>, docs: Documents, batch: Batch, force: bool, written: seq<string>,
      states: seq<Documents>)
  {
    && |states| == |written| + 1 && states[0] == docs
    && (forall i :: 0 <= i < |states| ==> PartOf(canon, docs, batch, force, states[i]))
    && forall i :: 0 <= i < |written| ==>
         written[i] in states[i + 1] && states[i + 1] == states[i][written[i] := states[i + 1][written[i]]]
  }

  lemma {:induction false} PassesOn(
      canon: string -> Option<string>, docs: Documents, batch: Batch, force: bool, written: seq<string>,
      states: seq<Documents>, reached: set<string>, g: string, text: string)
    requires Passes(canon, docs, batch, force, written, states)
    requires var next := states[|written|][g := text];
      reached <= Targets(canon, docs, batch) && next == Merged(canon, docs, batch, force, reached)
    ensures Passes(canon, docs, batch, force, written + [g], states + [states[|written|][g := text]])
  {
    hide Targets, Merged;
    var next := states[|written|][g := text];
    assert PartOf(canon, docs, batch, force, next);
    var all, names := states + [next], written + [g];
    forall i | 0 <= i < |names|
      ensures names[i] in all[i + 1] && all[i + 1] == all[i][names[i] := all[i + 1][names[i]]]
    {
      assert i < |written| ==> all[i + 1] == states[i + 1] && names[i] == written[i];
    }
  }

  class Store {
    var documents: Documents
    var sidecars: set<Key>

    /**
      Merges a batch into the documents, one file after another in name order. No
      file is touched unless the whole batch can be placed. The result names the files
      rewritten.
     */
    method MergeCompositeWrites(canon: string -> Option<string>, writes: seq<Write>, force: bool)
      returns (written: Option<seq<string>>, ghost states: seq<Documents>)
      requires Doubles(canon) && Distinctly(writes)
      requires forall w :: w in writes ==> w.key.table in COMPOSITE_TABLES
      modifies this`documents
      ensures written.Some? <==> writes == [] || Admits(canon, old(documents), sidecars, writes)
      ensures written.None? || writes == [] ==> documents == old(documents)
      ensures written.Some? && writes != [] ==>
        var batch := ToBatch(canon, writes);
        var targets := Targets(canon, old(documents), batch);
        && documents == Merged(canon, old(documents), batch, force, targets)
        && Sorted(written.value)
        && (forall g :: g in written.value <==> g in targets && Rewrites(canon, old(documents), batch, force, g))
        && Passes(canon, old(documents), batch, force, written.value, states)
    {
      hide Admits, Merged, Rewrites, ToBatch, Sorted, Distinctly, Doubles, Placeable, Passes;
      states := [documents];
      if writes == [] { return Some([]), states; }
      var placed := Plan(canon, writes);
      if placed.None? { return None, states; }
      AdmittedIsPlaceable(canon, documents, sidecars, writes);
      written, states := WritePlan(canon, ToBatch(canon, writes), placed.value, force);
    }

    /** Everything that can refuse the batch. */
    method Plan(canon: string -> Option<string>, writes: seq<Write>) returns (placed: Option<map<string, Batch>>)
      requires Distinctly(writes)
      ensures placed.Some? <==> Admits(canon, documents, sidecars, writes)
      ensures placed.Some? ==> PlanIs(canon, documents, ToBatch(canon, writes), placed.value)
    {
      hide Takes, ToBatch, PlanIs, Loads, IndexIs;
      for n := 0 to |writes|
        invariant forall w :: w in writes[..n] ==> w.key !in sidecars
      {
        if writes[n].key in sidecars {
          assert writes[n] in writes;
          return None;
        }
      }
      assert writes[..|writes|] == writes;
      var index := LoadCompositeIndex(canon, documents);
      if index.None? { return None; }
      placed := PlanWrites(canon, documents, index.value, writes);
    }

    /** Rewrites the documents of the plan that change, in name order. */
    method WritePlan(canon: string -> Option<string>, batch: Batch, plan: map<string, Batch>, force: bool)
      returns (written: Option<seq<string>>, ghost states: seq<Documents>)
      requires Doubles(canon) && Placeable(canon, documents, batch) && Loads(canon, documents)
      requires PlanIs(canon, documents, batch, plan)
      modifies this`documents
      ensures written.Some?
      ensures documents == Merged(canon, old(documents), batch, force, Targets(canon, old(documents), batch))
      ensures Sorted(written.value)
      ensures forall g :: g in written.value <==>
        g in Targets(canon, old(documents), batch) && Rewrites(canon, old(documents), batch, force, g)
      ensures Passes(canon, old(documents), batch, force, written.value, states)
    {
      hide Placeable, Loads, Rewrites, Merged, Doubles, Leq, SortedKeys, Targets, UpdatesFor, Applied, Serialize,
        ParseDocument, Changes, SameEntries, Passes;
      ghost var before := documents;
      ghost var targets := Targets(canon, before, batch);
      var groups := SortedKeys(plan.Keys);
      SortedKeysSorted(plan.Keys);
      var done: seq<string> := [];
      MergedNothing(canon, before, batch, force);
      states := [documents];
      NothingPassed(canon, before, batch, force);
      for n := 0 to |groups|
        invariant documents == Merged(canon, before, batch, force, Elements(groups[..n]))
        invariant Sorted(done) && Passes(canon, before, batch, force, done, states)
        invariant |states| == |done| + 1 && states[|done|] == documents
        invariant forall g :: g in done <==> g in groups[..n] && Rewrites(canon, before, batch, force, g)
      {
        var g := groups[n];
        assert groups[..n + 1] == groups[..n] + [g];
        assert g in groups && g !in groups[..n];
        CurrentUnreached(canon, before, batch, force, groups[..n], g);
        var doc, changed := MergeInto(Current(canon, documents, g), plan[g], force);
        assert changed <==> Rewrites(canon, before, batch, force, g) by { RewritesIs(canon, before, batch, force, g); }
        SameEntriesSameText(doc, Applied(Current(canon, before, g), plan[g], force));
        MergedNext(canon, before, batch, force, groups[..n], g);
        if changed {
          documents := documents[g := Serialize(doc)];
          assert Elements(groups[..n] + [g]) <= targets;
          PassesOn(canon, before, batch, force, done, states, Elements(groups[..n] + [g]), g, Serialize(doc));
          states := states + [documents];
          SortedSnoc(groups, n, done);
          done := done + [g];
        }
      }
      assert groups[..|groups|] == groups;
      assert Elements(groups) == targets;
      written := Some(done);
    }
  }

  lemma RewritesIs(
      canon: string -> Option<string>, docs: Documents, batch: Batch, force: bool, g: string)
    ensures Rewrites(canon, docs, batch, force, g) <==>
      Changes(Current(canon, docs, g), UpdatesFor(canon, docs, batch, g), force)
  {}

  lemma MergedNothing(canon: string -> Option<string>, docs: Documents, batch: Batch, force: bool)
    ensures Merged(canon, docs, batch, force, Elements([])) == docs
  {}

  lemma {:induction false} NothingPassed(canon: string -> Option<string>, docs: Documents, batch: Batch, force: bool)
    ensures Passes(canon, docs, batch, force, [], [docs])
  {
    MergedNothing(canon, docs, batch, force);
    assert PartOf(canon, docs, batch, force, docs) by {
      assert Elements<string>([]) == {};
    }
  }

  lemma {:induction false} SortedSnoc(groups: seq<string>, n: nat, done: seq<string>)
    requires n < |groups| && Sorted(groups) && Sorted(done) && forall g :: g in done ==> g in groups[..n]
    ensures Sorted(done + [groups[n]])
  {
    hide Leq;
    forall i | 0 <= i < |done| ensures Leq(done[i], groups[n]) {
      assert done[i] in done;
      var j :| 0 <= j < n && groups[j] == done[i];
    }
  }

  lemma CurrentUnreached(
      canon: string -> Option<string>, docs: Documents, batch: Batch, force: bool, reached: seq<string>, g: string)
    requires Doubles(canon) && Loads(canon, docs) && Placeable(canon, docs, batch) && g !in reached
    ensures Current(canon, Merged(canon, docs, batch, force, Elements(reached)), g) == Current(canon, docs, g)
  {}

  /** Dealing with one more group. */
  lemma {:induction false} MergedNext(
      canon: string -> Option<string>, docs: Documents, batch: Batch, force: bool, reached: seq<string>, g: string)
    requires Doubles(canon) && Loads(canon, docs) && Placeable(canon, docs, batch) && g !in reached
    requires g in Targets(canon, docs, batch)
    ensures var before := Merged(canon, docs, batch, force, Elements(reached));
      Merged(canon, docs, batch, force, Elements(reached + [g])) ==
        if Rewrites(canon, docs, batch, force, g)
        then before[g := Serialize(Applied(Current(canon, docs, g), UpdatesFor(canon, docs, batch, g), force))]
        else before
  {
    hide Rewrites, Targets, Current, UpdatesFor, Applied, Serialize, Loads, Placeable, Doubles;
    TargetsAreRewritten(canon, docs, batch, force, g);
    assert Elements(reached + [g]) == Elements(reached) + {g};
  }
}
