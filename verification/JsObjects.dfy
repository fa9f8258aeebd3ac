/** Objects as their members in enumeration order, objects as maps, and the canonical order between the two. */
module JsObjects {
  import opened Collections
  import opened StringOrder
  import opened JsonText
  import opened JsonRoundTrip
  import opened JsonGrammar

  function KeysOf(members: seq<Member>): (r: seq<string>)
    ensures |r| == |members| && forall i :: 0 <= i < |r| ==> r[i] == members[i].key
  {
    seq(|members|, i requires 0 <= i < |members| => members[i].key)
  }

  function Lookup(members: seq<Member>, key: string): (r: Option<Json>)
    ensures r.Some? <==> key in KeySet(members)
    ensures r.Some? ==> Member(key, r.value) in members
  {
    if members == [] then None
    else if members[|members| - 1].key == key then Some(members[|members| - 1].value)
    else
      var r := Lookup(members[..|members| - 1], key);
      assert members == members[..|members| - 1] + [members[|members| - 1]];
      assert KeySet(members) == KeySet(members[..|members| - 1]) + {members[|members| - 1].key};
      r
  }

  /** The object's contents, without their order. */
  function ToMap(members: seq<Member>): map<string, Json> {
    map k | k in KeySet(members) :: Lookup(members, k).value
  }

  lemma {:induction false} ToMapGives(members: seq<Member>, m: Member)
    requires InOrder(members) && m in members
    ensures m.key in ToMap(members) && ToMap(members)[m.key] == m.value
  {
    assert m.key in KeySet(members);
    var x := Member(m.key, Lookup(members, m.key).value);
    var i :| 0 <= i < |members| && members[i] == m;
    var j :| 0 <= j < |members| && members[j] == x;
    assert members[i].key == members[j].key;
  }

  /** Assigning the keys of a map in the given order. */
  function PutAll(keys: seq<string>, m: map<string, Json>): seq<Member>
    requires forall k :: k in keys ==> k in m
  {
    if keys == [] then []
    else
      var last := keys[|keys| - 1];
      Put(PutAll(keys[..|keys| - 1], m), Member(last, m[last]))
  }

  /** The members of a map as a sorted copy of the object enumerates them. */
  function Canonical(m: map<string, Json>): seq<Member> {
    PutAll(SortedKeys(m.Keys), m)
  }

  lemma {:induction false} PutAllMembers(keys: seq<string>, m: map<string, Json>)
    requires forall k :: k in keys ==> k in m
    ensures InOrder(PutAll(keys, m))
    ensures forall x :: x in PutAll(keys, m) <==> x.key in keys && x.value == m[x.key]
  {
    if keys != [] {
      var n := |keys| - 1;
      var last := Member(keys[n], m[keys[n]]);
      assert keys == keys[..n] + [keys[n]];
      PutAllMembers(keys[..n], m);
      hide Put, InOrder, KeySet;
      PutKeepsOrder(PutAll(keys[..n], m), last);
    }
  }

  lemma {:induction false} CanonicalMembers(m: map<string, Json>)
    ensures InOrder(Canonical(m))
    ensures forall x :: x in Canonical(m) <==> x.key in m && x.value == m[x.key]
    ensures Canonical(m) == [] <==> m == map[]
  {
    hide InOrder, PutAll;
    PutAllMembers(SortedKeys(m.Keys), m);
    if m != map[] {
      var k :| k in m;
      assert Member(k, m[k]) in Canonical(m);
    }
    assert Canonical(m) != [] ==> Canonical(m)[0] in Canonical(m);
  }

  /** The keys that spell no array index come in code-unit order. */
  lemma {:induction false} CanonicalAscends(m: map<string, Json>)
    ensures Sorted(PlainKeys(Canonical(m)))
  {
    hide PutAll, PlainKeys;
    SortedKeysSorted(m.Keys);
    PlainOfPutAll(SortedKeys(m.Keys), m);
  }

  lemma {:induction false} PlainOfPutAll(keys: seq<string>, m: map<string, Json>)
    requires Sorted(keys) && Distinct(keys) && forall k :: k in keys ==> k in m
    ensures Sorted(PlainKeys(PutAll(keys, m))) && forall k :: k in PlainKeys(PutAll(keys, m)) ==> k in keys
  {
    hide Put, Leq, IndexOfKey, InOrder, PlainKeys, Sorted;
    if keys != [] {
      var n := |keys| - 1;
      var front, last := keys[..n], keys[n];
      assert keys == front + [last];
      SortedFront(front, last);
      PlainOfPutAll(front, m);
      PutAllMembers(front, m);
      PlainOfPut(PutAll(front, m), Member(last, m[last]));
      var plain := PlainKeys(PutAll(front, m));
      SortedWith(plain, front, last);
      assert plain + [] == plain;
    } else {
      NothingSorted();
    }
  }

  lemma NothingSorted()
    ensures PlainKeys([]) == [] && Sorted([])
  {}

  lemma SortedFront(front: seq<string>, last: string)
    requires Sorted(front + [last])
    ensures Sorted(front) && forall x :: x in front ==> Leq(x, last)
  {
    var all := front + [last];
    forall x | x in front ensures Leq(x, last) {
      var i :| 0 <= i < |front| && front[i] == x;
      assert all[i] == x && all[|front|] == last;
    }
    assert forall i :: 0 <= i < |front| ==> all[i] == front[i];
  }

  lemma SortedWith(xs: seq<string>, within: seq<string>, last: string)
    requires Sorted(xs) && (forall x :: x in xs ==> x in within) && forall x :: x in within ==> Leq(x, last)
    ensures Sorted(xs + [last])
  {}

  /** The canonical order loses nothing. */
  lemma {:induction false} ToMapOfCanonical(m: map<string, Json>)
    ensures ToMap(Canonical(m)) == m
  {
    hide InOrder, Canonical, Lookup;
    CanonicalMembers(m);
    var c := Canonical(m);
    forall k ensures k in KeySet(c) <==> k in m {
      if k in m {
        assert Member(k, m[k]) in c;
      }
    }
    forall k | k in m ensures ToMap(c)[k] == m[k] {
      ToMapGives(c, Member(k, m[k]));
    }
  }

  /** `sortedCopy`: the same members in an order that depends on the contents alone. */
  method SortedCopy(source: seq<Member>) returns (copy: seq<Member>)
    requires InOrder(source)
    ensures copy == Canonical(ToMap(source))
  {
    hide InOrder, Put, Lookup, SortedKeys, Sort, ToMap, KeySet, KeysOf;
    KeysMatch(source);
    var keys := Sort(KeysOf(source));
    ghost var contents := ToMap(source);
    copy := [];
    for i := 0 to |keys|
      invariant forall k :: k in keys ==> k in contents
      invariant copy == PutAll(keys[..i], contents)
    {
      assert keys[..i + 1][..i] == keys[..i];
      assert keys[i] in keys;
      copy := Put(copy, Member(keys[i], Lookup(source, keys[i]).value));
    }
    assert keys[..|keys|] == keys;
  }

  lemma {:induction false} KeysMatch(source: seq<Member>)
    requires InOrder(source)
    ensures Sort(KeysOf(source)) == SortedKeys(ToMap(source).Keys)
    ensures forall k :: k in Sort(KeysOf(source)) ==>
      k in KeySet(source) && k in ToMap(source) && ToMap(source)[k] == Lookup(source, k).value
  {
    var keys := KeysOf(source);
    assert forall i, j :: 0 <= i < j < |source| ==> keys[i] != keys[j];
    hide InOrder, Lookup, SortedKeys, Sort;
    forall k ensures k in Elements(keys) <==> k in KeySet(source) {
      if k in Elements(keys) {
        var i :| 0 <= i < |keys| && keys[i] == k;
        assert source[i] in source;
      }
      if k in KeySet(source) {
        var m :| m in source && m.key == k;
        var i :| 0 <= i < |source| && source[i] == m;
        assert keys[i] == k;
      }
    }
    assert Elements(keys) == ToMap(source).Keys;
    SortIsSortedKeys(keys);
  }
}
