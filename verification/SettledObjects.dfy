/** Printing and reading back an object, seen through its contents. */
module SettledObjects {
  import opened Collections
  import opened StringOrder
  import opened JsonText
  import opened JsonRoundTrip
  import opened JsObjects

  function SettleMap(m: map<string, Json>): map<string, Json> {
    map k | k in m :: Settle(m[k])
  }

  function Settled(m: Member): Member {
    Member(m.key, Settle(m.value))
  }

  lemma {:induction false} SettleMembersAt(members: seq<Member>)
    ensures forall i :: 0 <= i < |members| ==> SettleMembers(members)[i] == Settled(members[i])
  {
    if members != [] {
      SettleMembersAt(members[1..]);
      assert members == [members[0]] + members[1..];
    }
  }

  lemma {:induction false} SettleMembersConcat(a: seq<Member>, b: seq<Member>)
    ensures SettleMembers(a + b) == SettleMembers(a) + SettleMembers(b)
  {
    hide Settle;
    SettleMembersAt(a);
    SettleMembersAt(b);
    SettleMembersAt(a + b);
  }

  lemma {:induction false} SettledKeys(members: seq<Member>)
    ensures KeySet(SettleMembers(members)) == KeySet(members)
    ensures forall m :: m in members ==> Settled(m) in SettleMembers(members)
  {
    hide Settle;
    SettleMembersAt(members);
    var s := SettleMembers(members);
    forall k ensures k in KeySet(s) <==> k in KeySet(members) {
      if k in KeySet(members) {
        var m :| m in members && m.key == k;
        var i :| 0 <= i < |members| && members[i] == m;
        assert s[i] in s;
      }
      if k in KeySet(s) {
        var m :| m in s && m.key == k;
        var i :| 0 <= i < |s| && s[i] == m;
        assert members[i] in members;
      }
    }
    forall m | m in members ensures Settled(m) in s {
      var i :| 0 <= i < |members| && members[i] == m;
      assert s[i] in s;
    }
  }

  /** Reading back settles each value and keeps the keys. */
  lemma {:induction false} ToMapOfSettled(members: seq<Member>)
    requires InOrder(members)
    ensures InOrder(SettleMembers(members))
    ensures ToMap(SettleMembers(members)) == SettleMap(ToMap(members))
  {
    hide Settle, InOrder, Lookup, SettleMembers;
    SettledInOrder(members);
    SettledKeys(members);
    forall k | k in KeySet(members)
      ensures ToMap(SettleMembers(members))[k] == Settle(ToMap(members)[k])
    {
      var m := Member(k, Lookup(members, k).value);
      ToMapGives(SettleMembers(members), Settled(m));
    }
  }

  lemma {:induction false} PutOfSettled(members: seq<Member>, m: Member)
    ensures Put(SettleMembers(members), Settled(m)) == SettleMembers(Put(members, m))
  {
    if members == [] {
      assert SettleMembers([m]) == [Settled(m)];
    } else {
      var front, last := members[..|members| - 1], members[|members| - 1];
      assert members == front + [last];
      PutOfSettled(front, m);
      hide Settle, SettleMembers, Before;
      SettleSnoc(front, last);
      SettleSnoc(front, m);
      SettleSnoc(members, m);
      SettleSnoc(Put(front, m), last);
      SettledKeys(members);
      PutCases(front, last, m);
      PutCases(SettleMembers(front), Settled(last), Settled(m));
    }
  }

  lemma {:induction false} SettleSnoc(members: seq<Member>, m: Member)
    ensures SettleMembers(members + [m]) == SettleMembers(members) + [Settled(m)]
  {
    SettleMembersConcat(members, [m]);
    assert SettleMembers([m]) == [Settled(m)];
  }

  lemma {:induction false} CanonicalOfSettled(m: map<string, Json>)
    ensures Canonical(SettleMap(m)) == SettleMembers(Canonical(m))
  {
    assert SettleMap(m).Keys == m.Keys;
    PutAllOfSettled(SortedKeys(m.Keys), m);
  }

  lemma {:induction false} PutAllOfSettled(keys: seq<string>, m: map<string, Json>)
    requires forall k :: k in keys ==> k in m
    ensures PutAll(keys, SettleMap(m)) == SettleMembers(PutAll(keys, m))
  {
    if keys != [] {
      var n := |keys| - 1;
      PutAllOfSettled(keys[..n], m);
      hide Put, Settle;
      PutOfSettled(PutAll(keys[..n], m), Member(keys[n], m[keys[n]]));
    }
  }

  ghost predicate NormalMap(canon: string -> Option<string>, m: map<string, Json>) {
    forall k :: k in m ==> Normal(canon, m[k])
  }

  /** A sorted copy of an object is one the printers and the parser agree on. */
  lemma {:induction false} CanonicalIsNormal(canon: string -> Option<string>, m: map<string, Json>)
    requires NormalMap(canon, m)
    ensures Normal(canon, Obj(Canonical(m)))
  {
    hide Canonical, InOrder;
    CanonicalMembers(m);
    var c := Canonical(m);
    forall i | 0 <= i < |c| ensures Normal(canon, c[i].value) {
      assert c[i] in c;
    }
  }

  /** What the canonical text of an object reads back as. */
  lemma {:induction false} SettleOfCanonical(m: map<string, Json>)
    ensures Settle(Obj(Canonical(m))) == Obj(Canonical(SettleMap(m)))
  {
    CanonicalOfSettled(m);
  }
}
