/**
  Merging downloaded sidecars into the documents: one store spread over many files
  that has to act like one map from records to entries.
 */
module CompositeMerge {
  import opened Collections
  import opened PathNames
  import opened JsonText
  import opened SettledObjects
  import opened CompositeDocument
  import opened CompositeCodec

  datatype Key = Key(table: string, record: string)

  /** The text of each document, by the table it is named after. */
  type Documents = map<string, string>

  /** A batch names each record once. */
  type Batch = map<Key, Entry>

  // --- The store as a map -----------------------------------------------------

  predicate HasEntry(doc: Document, k: Key) {
    k.table in doc.sections && k.record in doc.sections[k.table]
  }

  function EntryIn(doc: Document, k: Key): Entry
    requires HasEntry(doc, k)
  {
    doc.sections[k.table][k.record]
  }

  predicate Parses(canon: string -> Option<string>, docs: Documents, g: string) {
    g in docs && ParseDocument(canon, docs[g], g).Accepted?
  }

  predicate Held(canon: string -> Option<string>, docs: Documents, g: string, k: Key) {
    Parses(canon, docs, g) && HasEntry(ParseDocument(canon, docs[g], g).value, k)
  }

  /** Every document parses, and no record is held by two of them. */
  ghost predicate Loads(canon: string -> Option<string>, docs: Documents) {
    && (forall g :: g in docs ==> Parses(canon, docs, g))
    && (forall g, h, k :: Held(canon, docs, g, k) && Held(canon, docs, h, k) ==> g == h)
  }

  /** The document a group is merged into: the one on disk, or a new one. */
  function Current(canon: string -> Option<string>, docs: Documents, g: string): Document {
    if Parses(canon, docs, g) then ParseDocument(canon, docs[g], g).value else Document(g, map[])
  }

  // --- Where a record goes ----------------------------------------------------

  /** Where a new record goes: by its name column if that can name a table, else by the head of its own name. */
  function CompositeGroupFor(record: string, entry: Entry): Option<string> {
    if "name" in entry && entry["name"].Str? && IsTableName(entry["name"].s) then Some(entry["name"].s)
    else
      var head := PathNames.Before(record, '.');
      if IsTableName(head) then Some(head) else None
  }

  ghost predicate IsWordName(s: string) {
    s != "" && forall i :: 0 <= i < |s| ==>
      'a' <= s[i] <= 'z' || 'A' <= s[i] <= 'Z' || '0' <= s[i] <= '9' || s[i] == '_'
  }

  /** The name column says a table, if it is a text that can name one. */
  ghost predicate NamesTable(entry: Entry, g: string) {
    "name" in entry && entry["name"] == Str(g) && IsWordName(g)
  }

  /** A new record goes where its name column says; failing that, to the table its own name begins with. */
  lemma {:induction false} GroupForExactlyWhen(record: string, entry: Entry, g: string)
    ensures CompositeGroupFor(record, entry) == Some(g) <==>
      || NamesTable(entry, g)
      || ((forall h :: !NamesTable(entry, h)) && IsWordName(g)
          && (record == g || exists rest :: record == g + "." + rest))
  {
    hide PathNames.Before, IsTableName, IsWordName;
    WordNames();
    if "name" in entry && entry["name"].Str? && IsTableName(entry["name"].s) {
      assert NamesTable(entry, entry["name"].s);
    } else {
      assert forall h :: !NamesTable(entry, h);
      HeadExactlyWhen(record, g);
    }
  }

  lemma WordNames()
    ensures forall s :: IsTableName(s) <==> IsWordName(s)
  {}

  lemma {:induction false} HeadExactlyWhen(record: string, g: string)
    ensures IsWordName(g) ==>
      (PathNames.Before(record, '.') == g <==> record == g || exists rest :: record == g + "." + rest)
  {
    var head := PathNames.Before(record, '.');
    if IsWordName(g) && (record == g || exists rest :: record == g + "." + rest) {
      HeadIs(record, g);
    }
    if |head| < |record| {
      assert record == head + "." + record[|head| + 1..];
    } else {
      assert record == head;
    }
  }

  lemma {:induction false} HeadIs(record: string, g: string)
    requires IsWordName(g) && (record == g || exists rest :: record == g + "." + rest)
    ensures PathNames.Before(record, '.') == g
  {
    var head := PathNames.Before(record, '.');
    assert forall i :: 0 <= i < |g| ==> record[i] == g[i] && record[i] != '.';
    assert |g| < |record| ==> record[|g|] == '.';
    assert forall i :: 0 <= i < |head| ==> head[i] in head && record[i] == head[i];
  }

  /** Where a write goes: its columns decide only for a record that no document has yet. */
  ghost function GroupOf(canon: string -> Option<string>, docs: Documents, k: Key, entry: Entry): Option<string> {
    if exists g :: Held(canon, docs, g, k) then
      var g :| Held(canon, docs, g, k);
      Some(g)
    else CompositeGroupFor(k.record, entry)
  }

  lemma {:induction false} HeldGroup(canon: string -> Option<string>, docs: Documents, g: string, k: Key, entry: Entry)
    requires Loads(canon, docs) && Held(canon, docs, g, k)
    ensures GroupOf(canon, docs, k, entry) == Some(g)
  {
    hide Parses, HasEntry;
  }

  /** The batch can be placed: safe names, composite tables, and a document for each record. */
  ghost predicate Placeable(canon: string -> Option<string>, docs: Documents, batch: Batch) {
    forall k :: k in batch ==>
      && k.table in COMPOSITE_TABLES && SafeComponent(k.record) && NormalMap(canon, batch[k])
      && GroupOf(canon, docs, k, batch[k]).Some?
  }

  // --- The merge --------------------------------------------------------------

  ghost predicate Replaces(doc: Document, k: Key, entry: Entry, force: bool) {
    !HasEntry(doc, k) || (force && EntryText(EntryIn(doc, k)) != EntryText(entry))
  }

  ghost predicate Changes(doc: Document, updates: Batch, force: bool) {
    exists k :: k in updates && Replaces(doc, k, updates[k], force)
  }

  ghost function NewEntry(doc: Document, updates: Batch, force: bool, k: Key): Entry
    requires HasEntry(doc, k) || k in updates
  {
    if k in updates && Replaces(doc, k, updates[k], force) then updates[k] else EntryIn(doc, k)
  }

  function NamesIn(doc: Document, t: string): set<string> {
    if t in doc.sections then doc.sections[t].Keys else {}
  }

  function NamesOf(updates: Batch, t: string): set<string> {
    set k | k in updates && k.table == t :: k.record
  }

  /** The document with the updates it takes. */
  ghost function Applied(doc: Document, updates: Batch, force: bool): Document {
    doc.(sections := map t | t in doc.sections.Keys + (set k | k in updates :: k.table) ::
      map r | r in NamesIn(doc, t) + NamesOf(updates, t) :: AppliedEntry(doc, updates, force, t, r))
  }

  ghost function AppliedEntry(doc: Document, updates: Batch, force: bool, t: string, r: string): Entry
  {
    if HasEntry(doc, Key(t, r)) || Key(t, r) in updates then NewEntry(doc, updates, force, Key(t, r)) else map[]
  }

  lemma {:induction false} AppliedHas(doc: Document, updates: Batch, force: bool, k: Key)
    ensures HasEntry(Applied(doc, updates, force), k) <==> HasEntry(doc, k) || k in updates
    ensures HasEntry(Applied(doc, updates, force), k) ==>
      EntryIn(Applied(doc, updates, force), k) == NewEntry(doc, updates, force, k)
  {
    hide Replaces;
    if k in updates {
      assert k.record in NamesOf(updates, k.table);
    }
    if k.record in NamesOf(updates, k.table) {
      assert k in updates;
    }
  }

  ghost function UpdatesFor(canon: string -> Option<string>, docs: Documents, batch: Batch, g: string): Batch {
    map k | k in batch && GroupOf(canon, docs, k, batch[k]) == Some(g) :: batch[k]
  }

  /** The documents a batch touches. */
  ghost function Targets(canon: string -> Option<string>, docs: Documents, batch: Batch): set<string> {
    set k | k in batch && GroupOf(canon, docs, k, batch[k]).Some? :: GroupOf(canon, docs, k, batch[k]).value
  }

  ghost predicate Rewrites(canon: string -> Option<string>, docs: Documents, batch: Batch, force: bool, g: string) {
    Changes(Current(canon, docs, g), UpdatesFor(canon, docs, batch, g), force)
  }

  /**
    The documents once the merge has dealt with the groups of `reached`. Where nothing
    is added or replaced, the bytes on disk stay.
   */
  ghost function Merged(
      canon: string -> Option<string>, docs: Documents, batch: Batch, force: bool, reached: set<string>): Documents
  {
    map g | g in docs.Keys + (Targets(canon, docs, batch) * reached) ::
      if (g in reached && Rewrites(canon, docs, batch, force, g)) || g !in docs then
        Serialize(Applied(Current(canon, docs, g), UpdatesFor(canon, docs, batch, g), force))
      else docs[g]
  }

  // --- The documents after a merge --------------------------------------------

  lemma {:induction false} CurrentIsValid(canon: string -> Option<string>, docs: Documents, g: string)
    requires Doubles(canon)
    ensures ValidDocument(canon, Current(canon, docs, g)) && Current(canon, docs, g).table == g
  {
    hide ParseDocument;
    if Parses(canon, docs, g) {
      ParsedIsValid(canon, docs[g], g);
    }
  }

  lemma ValidEntries(canon: string -> Option<string>, doc: Document)
    ensures ValidDocument(canon, doc) ==>
      forall k :: HasEntry(doc, k) ==> SafeComponent(k.record) && NormalMap(canon, EntryIn(doc, k))
  {}

  lemma {:induction false} AppliedIsValid(canon: string -> Option<string>, doc: Document, updates: Batch, force: bool)
    requires ValidDocument(canon, doc)
    requires forall k :: k in updates ==>
      k.table in COMPOSITE_TABLES && SafeComponent(k.record) && NormalMap(canon, updates[k])
    ensures ValidDocument(canon, Applied(doc, updates, force)) && Applied(doc, updates, force).table == doc.table
  {
    hide SafeComponent, NormalMap, EntryText, Applied;
    var after := Applied(doc, updates, force);
    AppliedSections(doc, updates, force);
    ValidEntries(canon, doc);
    forall t | t in after.sections ensures t in COMPOSITE_TABLES && ValidSection(canon, after.sections[t]) {
      forall r | r in after.sections[t] ensures SafeComponent(r) && NormalMap(canon, after.sections[t][r]) {
        AppliedHas(doc, updates, force, Key(t, r));
        assert HasEntry(after, Key(t, r)) && EntryIn(after, Key(t, r)) == after.sections[t][r];
      }
    }
  }

  lemma AppliedSections(doc: Document, updates: Batch, force: bool)
    ensures Applied(doc, updates, force).table == doc.table
    ensures forall t :: t in Applied(doc, updates, force).sections ==>
      t in doc.sections || exists k :: k in updates && k.table == t
  {}

  /** How a rewritten document's entries come back from its text. */
  lemma WrittenEntries(doc: Document, k: Key)
    ensures HasEntry(AsWritten(doc), k) <==> HasEntry(doc, k)
    ensures HasEntry(doc, k) ==> EntryIn(AsWritten(doc), k) == SettleMap(EntryIn(doc, k))
  {}

  /** A reached group's document after the merge, as its text reads. */
  lemma {:induction false} RewrittenReads(
      canon: string -> Option<string>, docs: Documents, batch: Batch, force: bool, g: string)
    requires Doubles(canon) && Placeable(canon, docs, batch)
    ensures var doc := Applied(Current(canon, docs, g), UpdatesFor(canon, docs, batch, g), force);
      ParseDocument(canon, Serialize(doc), g) == Accepted(AsWritten(doc))
  {
    hide ParseDocument, Serialize, AsWritten, Applied, ValidDocument, SafeComponent, NormalMap, Current, GroupOf;
    var updates := UpdatesFor(canon, docs, batch, g);
    CurrentIsValid(canon, docs, g);
    AppliedIsValid(canon, Current(canon, docs, g), updates, force);
    ParseOfSerialize(canon, Applied(Current(canon, docs, g), updates, force));
  }

  /** The merge's document for a group that was not reached, or needed nothing, is the one before. */
  lemma {:induction false} AfterMerge(
      canon: string -> Option<string>, docs: Documents, batch: Batch, force: bool, reached: set<string>, g: string)
    requires Doubles(canon) && Loads(canon, docs) && Placeable(canon, docs, batch)
    ensures var after := Merged(canon, docs, batch, force, reached);
      var doc := Applied(Current(canon, docs, g), UpdatesFor(canon, docs, batch, g), force);
      && (g in after ==> Parses(canon, after, g))
      && (g in reached && Rewrites(canon, docs, batch, force, g) ==>
            g in after && after[g] == Serialize(doc) && Current(canon, after, g) == AsWritten(doc))
      && (!(g in reached && Rewrites(canon, docs, batch, force, g)) ==>
            (g in after <==> g in docs) && (g in docs ==> after[g] == docs[g])
            && Current(canon, after, g) == Current(canon, docs, g))
  {
    hide ParseDocument, Serialize, AsWritten, Applied, GroupOf, Placeable;
    RewrittenReads(canon, docs, batch, force, g);
    TargetsAreRewritten(canon, docs, batch, force, g);
  }

  lemma {:induction false} TargetsAreRewritten(
      canon: string -> Option<string>, docs: Documents, batch: Batch, force: bool, g: string)
    requires Loads(canon, docs)
    ensures g in Targets(canon, docs, batch) <==> UpdatesFor(canon, docs, batch, g) != map[]
    ensures g !in docs && g in Targets(canon, docs, batch) ==> Rewrites(canon, docs, batch, force, g)
    ensures Rewrites(canon, docs, batch, force, g) ==> g in Targets(canon, docs, batch)
  {
    hide ParseDocument, GroupOf, EntryText;
    var updates := UpdatesFor(canon, docs, batch, g);
    if g in Targets(canon, docs, batch) {
      var k :| k in batch && GroupOf(canon, docs, k, batch[k]) == Some(g);
      assert k in updates;
      if g !in docs {
        assert Replaces(Current(canon, docs, g), k, updates[k], force);
      }
    }
    if updates != map[] {
      var k :| k in updates;
      assert GroupOf(canon, docs, k, batch[k]).value == g;
    }
  }

  // --- What every merge keeps -------------------------------------------------

  /** Exactly the records held before, where they were, and the batch's records of the reached groups. */
  lemma {:induction false} HeldAfter(
      canon: string -> Option<string>, docs: Documents, batch: Batch, force: bool, reached: set<string>, g: string,
      k: Key)
    requires Doubles(canon) && Loads(canon, docs) && Placeable(canon, docs, batch)
    ensures Held(canon, Merged(canon, docs, batch, force, reached), g, k) <==>
      Held(canon, docs, g, k) || (g in reached && k in batch && GroupOf(canon, docs, k, batch[k]) == Some(g))
  {
    hide ParseDocument, Serialize, AsWritten, Applied, GroupOf, Placeable, Loads, EntryText, Merged, HasEntry;
    var after := Merged(canon, docs, batch, force, reached);
    var updates := UpdatesFor(canon, docs, batch, g);
    var doc := Applied(Current(canon, docs, g), updates, force);
    AfterMerge(canon, docs, batch, force, reached, g);
    AppliedHas(Current(canon, docs, g), updates, force, k);
    WrittenEntries(doc, k);
    NewDocumentIsEmpty(canon, docs, g, k);
    NewDocumentIsEmpty(canon, after, g, k);
    assert k in updates <==> k in batch && GroupOf(canon, docs, k, batch[k]) == Some(g);
    if k in updates && !Rewrites(canon, docs, batch, force, g) {
      assert !Replaces(Current(canon, docs, g), k, updates[k], force);
    }
  }

  lemma NewDocumentIsEmpty(canon: string -> Option<string>, docs: Documents, g: string, k: Key)
    ensures Held(canon, docs, g, k) <==> HasEntry(Current(canon, docs, g), k)
  {}

  /**
    Merging keeps "each record is held by at most one document", and never moves a
    record: in every state the merge passes through, a record held before is held by
    the same document.
   */
  lemma {:induction false} MergeKeepsOneHolder(
      canon: string -> Option<string>, docs: Documents, batch: Batch, force: bool, reached: set<string>)
    requires Doubles(canon) && Loads(canon, docs) && Placeable(canon, docs, batch)
    ensures Loads(canon, Merged(canon, docs, batch, force, reached))
    ensures forall g, k :: Held(canon, docs, g, k) ==> Held(canon, Merged(canon, docs, batch, force, reached), g, k)
  {
    hide ParseDocument, Serialize, AsWritten, Applied, GroupOf, Placeable, EntryText, Merged, HasEntry, Held;
    var after := Merged(canon, docs, batch, force, reached);
    forall g | g in after ensures Parses(canon, after, g) {
      AfterMerge(canon, docs, batch, force, reached, g);
    }
    forall g, k | Held(canon, docs, g, k) ensures Held(canon, after, g, k) {
      HeldAfter(canon, docs, batch, force, reached, g, k);
    }
    forall g, h, k | Held(canon, after, g, k) && Held(canon, after, h, k) ensures g == h {
      HeldAfter(canon, docs, batch, force, reached, g, k);
      HeldAfter(canon, docs, batch, force, reached, h, k);
      OneGroup(canon, docs, batch, g, h, k);
    }
  }

  lemma {:induction false} OneGroup(
      canon: string -> Option<string>, docs: Documents, batch: Batch, g: string, h: string, k: Key)
    requires Loads(canon, docs)
    requires Held(canon, docs, g, k) || (k in batch && GroupOf(canon, docs, k, batch[k]) == Some(g))
    requires Held(canon, docs, h, k) || (k in batch && GroupOf(canon, docs, k, batch[k]) == Some(h))
    ensures g == h
  {
    hide GroupOf, Held;
    if Held(canon, docs, g, k) && k in batch {
      HeldGroup(canon, docs, g, k, batch[k]);
    }
    if Held(canon, docs, h, k) && k in batch {
      HeldGroup(canon, docs, h, k, batch[k]);
    }
  }

  /** What a record's entry is after the merge. */
  ghost function EntryAfter(
      canon: string -> Option<string>, docs: Documents, batch: Batch, force: bool, reached: set<string>, g: string,
      k: Key): Entry
    requires Held(canon, Merged(canon, docs, batch, force, reached), g, k)
  {
    EntryIn(Current(canon, Merged(canon, docs, batch, force, reached), g), k)
  }

  lemma {:induction false} EntryIsNew(
      canon: string -> Option<string>, docs: Documents, batch: Batch, force: bool, reached: set<string>, g: string,
      k: Key)
    requires Doubles(canon) && Loads(canon, docs) && Placeable(canon, docs, batch)
    requires Held(canon, Merged(canon, docs, batch, force, reached), g, k)
    ensures var before := Current(canon, docs, g);
      var updates := UpdatesFor(canon, docs, batch, g);
      var entry := EntryAfter(canon, docs, batch, force, reached, g, k);
      if g in reached && Rewrites(canon, docs, batch, force, g)
      then (HasEntry(before, k) || k in updates) && entry == SettleMap(NewEntry(before, updates, force, k))
      else HasEntry(before, k) && entry == EntryIn(before, k)
  {
    hide ParseDocument, Serialize, AsWritten, Applied, GroupOf, Placeable, Loads, EntryText, Merged;
    var updates := UpdatesFor(canon, docs, batch, g);
    AfterMerge(canon, docs, batch, force, reached, g);
    AppliedHas(Current(canon, docs, g), updates, force, k);
    WrittenEntries(Applied(Current(canon, docs, g), updates, force), k);
    NewDocumentIsEmpty(canon, Merged(canon, docs, batch, force, reached), g, k);
  }

  /**
    An entry the batch does not name, or that it may not replace, keeps its canonical
    text. As read it is the same entry exactly when its document is not rewritten, or
    it was read without a number past the range of a double.
   */
  lemma {:induction false} OtherEntriesKeepTheirText(
      canon: string -> Option<string>, docs: Documents, batch: Batch, force: bool, reached: set<string>, g: string,
      k: Key)
    requires Doubles(canon) && Loads(canon, docs) && Placeable(canon, docs, batch)
    requires Held(canon, docs, g, k) && (k !in batch || !force || g !in reached)
    ensures Held(canon, Merged(canon, docs, batch, force, reached), g, k)
    ensures var was := EntryIn(Current(canon, docs, g), k);
      var now := EntryAfter(canon, docs, batch, force, reached, g, k);
      && EntryText(now) == EntryText(was)
      && (now == was <==> !(g in reached && Rewrites(canon, docs, batch, force, g)) || SettleMap(was) == was)
  {
    hide ParseDocument, Serialize, AsWritten, Applied, GroupOf, Placeable, Loads, EntryText, Merged, SettleMap,
      Rewrites;
    HeldAfter(canon, docs, batch, force, reached, g, k);
    EntryIsNew(canon, docs, batch, force, reached, g, k);
    NewDocumentIsEmpty(canon, docs, g, k);
    EntryTextSettles(EntryIn(Current(canon, docs, g), k));
  }

  /** With force, every record of the batch ends up with the text of what was downloaded. */
  lemma {:induction false} ForceDelivers(
      canon: string -> Option<string>, docs: Documents, batch: Batch, reached: set<string>, g: string, k: Key)
    requires Doubles(canon) && Loads(canon, docs) && Placeable(canon, docs, batch)
    requires k in batch && GroupOf(canon, docs, k, batch[k]) == Some(g) && g in reached
    ensures Held(canon, Merged(canon, docs, batch, true, reached), g, k)
    ensures EntryText(EntryAfter(canon, docs, batch, true, reached, g, k)) == EntryText(batch[k])
  {
    hide ParseDocument, Serialize, AsWritten, Applied, GroupOf, Placeable, Loads, EntryText, Merged, SettleMap,
      Held, HasEntry;
    HeldAfter(canon, docs, batch, true, reached, g, k);
    EntryIsNew(canon, docs, batch, true, reached, g, k);
    var before, updates := Current(canon, docs, g), UpdatesFor(canon, docs, batch, g);
    assert k in updates && updates[k] == batch[k];
    if Replaces(before, k, updates[k], true) {
      assert Changes(before, updates, true);
    }
    EntryTextSettles(NewEntry(before, updates, true, k));
  }

  /** Without force, exactly the batch's records that no document held are added, as downloaded. */
  lemma {:induction false} AbsentEntriesAreAdded(
      canon: string -> Option<string>, docs: Documents, batch: Batch, force: bool, reached: set<string>, g: string,
      k: Key)
    requires Doubles(canon) && Loads(canon, docs) && Placeable(canon, docs, batch)
    requires Held(canon, Merged(canon, docs, batch, force, reached), g, k) && !Held(canon, docs, g, k)
    ensures k in batch && GroupOf(canon, docs, k, batch[k]) == Some(g) && g in reached
    ensures EntryAfter(canon, docs, batch, force, reached, g, k) == SettleMap(batch[k])
  {
    hide ParseDocument, Serialize, AsWritten, Applied, GroupOf, Placeable, Loads, EntryText, Merged, SettleMap;
    HeldAfter(canon, docs, batch, force, reached, g, k);
    EntryIsNew(canon, docs, batch, force, reached, g, k);
    NewDocumentIsEmpty(canon, docs, g, k);
  }

  // --- Repeating and resuming -------------------------------------------------

  lemma {:induction false} SamePlaces(
      canon: string -> Option<string>, docs: Documents, batch: Batch, force: bool, reached: set<string>, k: Key)
    requires Doubles(canon) && Loads(canon, docs) && Placeable(canon, docs, batch) && k in batch
    ensures GroupOf(canon, Merged(canon, docs, batch, force, reached), k, batch[k]) == GroupOf(canon, docs, k, batch[k])
  {
    hide ParseDocument, Serialize, AsWritten, Applied, EntryText, Merged, Held, Loads;
    var after := Merged(canon, docs, batch, force, reached);
    MergeKeepsOneHolder(canon, docs, batch, force, reached);
    var g := GroupOf(canon, docs, k, batch[k]).value;
    if h :| Held(canon, after, h, k) {
      HeldAfter(canon, docs, batch, force, reached, h, k);
      HeldGroup(canon, after, h, k, batch[k]);
      if Held(canon, docs, h, k) {
        HeldGroup(canon, docs, h, k, batch[k]);
      }
    } else if h :| Held(canon, docs, h, k) {
      HeldAfter(canon, docs, batch, force, reached, h, k);
      assert false;
    }
  }

  /** Once a group has been merged, merging the batch into it again changes nothing. */
  lemma {:induction false} NothingLeftToDo(
      canon: string -> Option<string>, docs: Documents, batch: Batch, force: bool, reached: set<string>, g: string)
    requires Doubles(canon) && Loads(canon, docs) && Placeable(canon, docs, batch) && g in reached
    ensures var after := Merged(canon, docs, batch, force, reached);
      !Rewrites(canon, after, batch, force, g)
  {
    hide ParseDocument, Serialize, AsWritten, Applied, GroupOf, Placeable, Loads, EntryText, Merged;
    var after := Merged(canon, docs, batch, force, reached);
    SameUpdates(canon, docs, batch, force, reached, g);
    var updates := UpdatesFor(canon, docs, batch, g);
    forall k | k in updates ensures !Replaces(Current(canon, after, g), k, updates[k], force) {
      HeldAfter(canon, docs, batch, force, reached, g, k);
      NewDocumentIsEmpty(canon, after, g, k);
      if force {
        ForceDelivers(canon, docs, batch, reached, g, k);
      }
    }
  }

  lemma {:induction false} SameUpdates(
      canon: string -> Option<string>, docs: Documents, batch: Batch, force: bool, reached: set<string>, g: string)
    requires Doubles(canon) && Loads(canon, docs) && Placeable(canon, docs, batch)
    ensures var after := Merged(canon, docs, batch, force, reached);
      && UpdatesFor(canon, after, batch, g) == UpdatesFor(canon, docs, batch, g)
      && Targets(canon, after, batch) == Targets(canon, docs, batch)
  {
    hide ParseDocument, Serialize, AsWritten, Applied, GroupOf, Loads, EntryText, Merged;
    var after := Merged(canon, docs, batch, force, reached);
    forall k | k in batch
      ensures GroupOf(canon, after, k, batch[k]) == GroupOf(canon, docs, k, batch[k])
    {
      SamePlaces(canon, docs, batch, force, reached, k);
    }
  }

  /**
    A merge that was killed after any number of its documents, and is run again with
    the same batch, ends where the whole merge would have: in particular merging twice
    is merging once, byte for byte.
   */
  lemma {:induction false} ResumedMerge(
      canon: string -> Option<string>, docs: Documents, batch: Batch, force: bool, reached: set<string>,
      all: set<string>)
    requires Doubles(canon) && Loads(canon, docs) && Placeable(canon, docs, batch) && reached <= all
    ensures var partial := Merged(canon, docs, batch, force, reached);
      Merged(canon, partial, batch, force, all) == Merged(canon, docs, batch, force, all)
  {
    hide ParseDocument, Serialize, AsWritten, Applied, GroupOf, Placeable, EntryText, Targets, UpdatesFor, Rewrites;
    var partial := Merged(canon, docs, batch, force, reached);
    MergeKeepsOneHolder(canon, docs, batch, force, reached);
    var once, twice := Merged(canon, docs, batch, force, all), Merged(canon, partial, batch, force, all);
    forall g ensures (g in once <==> g in twice) && (g in once ==> once[g] == twice[g]) {
      ResumedGroup(canon, docs, batch, force, reached, all, g);
    }
  }

  lemma {:induction false} ResumedGroup(
      canon: string -> Option<string>, docs: Documents, batch: Batch, force: bool, reached: set<string>,
      all: set<string>,
      g: string)
    requires Doubles(canon) && Loads(canon, docs) && Placeable(canon, docs, batch) && reached <= all
    requires Loads(canon, Merged(canon, docs, batch, force, reached))
    ensures var partial := Merged(canon, docs, batch, force, reached);
      var once, twice := Merged(canon, docs, batch, force, all), Merged(canon, partial, batch, force, all);
      (g in once <==> g in twice) && (g in once ==> once[g] == twice[g])
  {
    hide ParseDocument, Serialize, AsWritten, Applied, GroupOf, Placeable, EntryText, UpdatesFor, Loads, Current,
      Changes;
    var partial := Merged(canon, docs, batch, force, reached);
    AfterMerge(canon, docs, batch, force, reached, g);
    SameUpdates(canon, docs, batch, force, reached, g);
    TargetsAreRewritten(canon, docs, batch, force, g);
    if g in reached {
      NothingLeftToDo(canon, docs, batch, force, reached, g);
    }
  }
}
