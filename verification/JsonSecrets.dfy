/** Credentials inside a JSON column, at any depth and any number of string encodings down. */
module JsonSecrets {
  import opened Collections
  import opened JsText
  import opened JsonText

  // --- Keys that name a credential --------------------------------------------

  const WORDS := {
    "password", "passwd", "pwd", "secret", "client_secret", "apikey", "api_key", "access_token", "refresh_token",
    "auth_token", "bearer_token", "id_token", "private_key", "credential", "credentials", "authorization"}

  /** An underscore before each capital that follows a lower-case letter or a digit. */
  function SplitCamel(key: string): string {
    if |key| < 2 then key
    else if ('a' <= key[0] <= 'z' || '0' <= key[0] <= '9') && 'A' <= key[1] <= 'Z'
    then [key[0], '_'] + SplitCamel(key[1..])
    else [key[0]] + SplitCamel(key[1..])
  }

  predicate IsJoint(c: char) {
    c == '-' || c == '.' || IsSpace(c)
  }

  /** One underscore for each run of hyphens, points and spaces. */
  function JoinWords(key: string, inRun: bool): string {
    if key == [] then []
    else if IsJoint(key[0]) then (if inRun then [] else ['_']) + JoinWords(key[1..], true)
    else [key[0]] + JoinWords(key[1..], false)
  }

  function NormalizeKey(key: string): string {
    Lower(JoinWords(SplitCamel(key), false))
  }

  /** The key's last words name a credential. */
  predicate IsSecretKey(key: string) {
    exists word :: word in WORDS && IsLast(NormalizeKey(key), word)
  }

  predicate IsLast(k: string, word: string) {
    |word| <= |k| && k[|k| - |word|..] == word && (|word| == |k| || k[|k| - |word| - 1] == '_')
  }

  // --- Weight: what makes the descent end -------------------------------------

  function Weight(v: Json): (w: nat)
    ensures w > 0
    decreases v
  {
    match v
    case Str(s) => |s| + 2
    case Arr(items) => 1 + WeightOfItems(items)
    case Obj(members) => 1 + WeightOfMembers(members)
    case _ => 1
  }

  function WeightOfItems(items: seq<Json>): nat
    decreases items
  {
    if items == [] then 0 else WeightOfItems(items[..|items| - 1]) + Weight(items[|items| - 1])
  }

  function WeightOfMembers(members: seq<Member>): nat
    decreases members
  {
    if members == [] then 0 else WeightOfMembers(members[..|members| - 1]) + Weight(members[|members| - 1].value)
  }

  lemma {:induction false} CharsAreShorter(s: string)
    requires Chars(s).Ok?
    ensures |Chars(s).value| + 1 + |Chars(s).rest| <= |s|
    decreases |s|
  {
    if s[0] != '"' {
      if s[0] != '\\' {
        CharsAreShorter(s[1..]);
      } else if s[1] == 'u' {
        CharsAreShorter(UnicodeEscape(s[2..]).rest);
      } else {
        CharsAreShorter(s[2..]);
      }
    }
  }

  lemma {:induction false} PutWeighsLess(members: seq<Member>, m: Member)
    ensures WeightOfMembers(Put(members, m)) <= WeightOfMembers(members) + Weight(m.value)
  {
    if members == [] {
      assert [m][..0] == [];
    } else {
      var front, last := members[..|members| - 1], members[|members| - 1];
      assert (front + [m])[..|front|] == front;
      assert (members + [m])[..|members|] == members;
      assert (Put(front, m) + [last])[..|Put(front, m)|] == Put(front, m);
      PutWeighsLess(front, m);
    }
  }

  /** A parsed value weighs no more than the text it was read from. */
  lemma {:induction false} ValueWeighsLess(canon: string -> Option<string>, s: string)
    requires Value(canon, s).Ok?
    ensures Weight(Value(canon, s).value) + |Value(canon, s).rest| <= |s|
    decreases |s|, 0
  {
    hide Put;
    if s[0] == '"' {
      CharsAreShorter(s[1..]);
    } else if s[0] == '[' {
      var t := SkipWs(s[1..]);
      if !(t != [] && t[0] == ']') {
        ItemsWeighLess(canon, t, []);
      }
    } else if s[0] == '{' {
      var t := SkipWs(s[1..]);
      if !(t != [] && t[0] == '}') {
        MembersWeighLess(canon, t, []);
      }
    }
  }

  lemma {:induction false} ItemsWeighLess(canon: string -> Option<string>, s: string, done: seq<Json>)
    requires Items(canon, s, done).Ok?
    ensures Weight(Items(canon, s, done).value) + |Items(canon, s, done).rest| <= 1 + WeightOfItems(done) + |s|
    decreases |s|, 1
  {
    hide Value;
    ValueWeighsLess(canon, s);
    var item := Value(canon, s);
    var t := SkipWs(item.rest);
    var done1 := done + [item.value];
    assert done1[..|done|] == done;
    if t[0] == ',' {
      ItemsWeighLess(canon, SkipWs(t[1..]), done1);
    }
  }

  lemma {:induction false} MembersWeighLess(canon: string -> Option<string>, s: string, done: seq<Member>)
    requires Members(canon, s, done).Ok?
    ensures Weight(Members(canon, s, done).value) + |Members(canon, s, done).rest| <= 1 + WeightOfMembers(done) + |s|
    decreases |s|, 1
  {
    hide Value, Put, Chars;
    var key := Chars(s[1..]);
    var t := SkipWs(key.rest);
    ValueWeighsLess(canon, SkipWs(t[1..]));
    var item := Value(canon, SkipWs(t[1..]));
    var u := SkipWs(item.rest);
    var m := Member(key.value, item.value);
    PutWeighsLess(done, m);
    if u[0] == ',' {
      MembersWeighLess(canon, SkipWs(u[1..]), Put(done, m));
    }
  }

  // --- The walk ---------------------------------------------------------------

  /** A string that is itself an encoded object or array is walked as what it encodes. */
  function NestedJson(canon: string -> Option<string>, v: Json): (r: Json)
    ensures Weight(r) <= Weight(v)
  {
    if !v.Str? || TrimLeft(v.s) == [] || TrimLeft(v.s)[0] !in {'[', '{'} then v
    else
      var parsed := Parse(canon, v.s);
      if parsed.None? then v
      else
        ValueWeighsLess(canon, SkipWs(v.s));
        parsed.value
  }

  /** A step from a value to one it holds. */
  datatype Step = Key(key: string) | Index(index: nat)

  type Trail = seq<Step>

  predicate IsSecret(m: Member) {
    m.value.Str? && m.value.s != "" && IsSecretKey(m.key)
  }

  /** The trails to credentials, in the order the walk finds them. */
  function Walk(canon: string -> Option<string>, v: Json, at: Trail): seq<Trail>
    decreases Weight(v), 0
  {
    match v
    case Arr(items) => WalkItems(canon, items, at)
    case Obj(members) => WalkMembers(canon, members, at)
    case _ => []
  }

  function WalkItems(canon: string -> Option<string>, items: seq<Json>, at: Trail): seq<Trail>
    decreases WeightOfItems(items), 1
  {
    if items == [] then []
    else
      var n := |items| - 1;
      WalkItems(canon, items[..n], at) + Walk(canon, NestedJson(canon, items[n]), at + [Index(n)])
  }

  function WalkMembers(canon: string -> Option<string>, members: seq<Member>, at: Trail): seq<Trail>
    decreases WeightOfMembers(members), 1
  {
    if members == [] then []
    else
      var m := members[|members| - 1];
      WalkMembers(canon, members[..|members| - 1], at)
      + (if IsSecret(m) then [at + [Key(m.key)]] else Walk(canon, NestedJson(canon, m.value), at + [Key(m.key)]))
  }

  // --- What the walk promises -------------------------------------------------

  /** The first character past any white space opens an object or an array. */
  ghost predicate Opens(s: string) {
    exists before, rest :: s == before + rest && Blank(before) && rest != "" && (rest[0] == '{' || rest[0] == '[')
  }

  /** What a value leads on into: the parsed contents of a string that encodes an object or an array, else itself. */
  ghost function Inside(canon: string -> Option<string>, v: Json): Json {
    if v.Str? && Opens(v.s) && Parse(canon, v.s).Some? then Parse(canon, v.s).value else v
  }

  lemma {:induction false} NestedIsInside(canon: string -> Option<string>, v: Json)
    ensures NestedJson(canon, v) == Inside(canon, v)
  {
    hide Parse, TrimLeft;
    if v.Str? {
      OpensExactlyWhen(v.s);
    }
  }

  lemma {:induction false} OpensExactlyWhen(s: string)
    ensures Opens(s) <==> TrimLeft(s) != [] && (TrimLeft(s)[0] == '{' || TrimLeft(s)[0] == '[')
  {
    if Opens(s) {
      var before, rest :| s == before + rest && Blank(before) && rest != "" && (rest[0] == '{' || rest[0] == '[');
      TrimLeftSpells(before, rest);
    }
    var n := LeadingSpace(s);
    assert s == s[..n] + s[n..];
  }

  lemma {:induction false} LeadingSpace(s: string) returns (n: nat)
    ensures n <= |s| && Blank(s[..n]) && TrimLeft(s) == s[n..]
  {
    if s != [] && IsSpace(s[0]) {
      var m := LeadingSpace(s[1..]);
      n := m + 1;
      assert s[..n] == [s[0]] + s[1..][..m];
    } else {
      n := 0;
    }
  }

  // --- What names a credential ------------------------------------------------

  /** A character of a key, after the one before it, in the spelling in which keys are compared. */
  function Respelled(before: Option<char>, c: char): string {
    if c == '-' || c == '.' || IsSpace(c) then
      if before.Some? && (before.value == '-' || before.value == '.' || IsSpace(before.value)) then "" else "_"
    else if 'A' <= c <= 'Z' then
      var gap := if before.Some? && ('a' <= before.value <= 'z' || '0' <= before.value <= '9') then "_" else "";
      gap + [c + 32 as char]
    else [c]
  }

  /** The key in small letters, an underscore for each break between its words. */
  function Spelling(key: string): string {
    if key == [] then []
    else
      var n := |key| - 1;
      Spelling(key[..n]) + Respelled(if n == 0 then None else Some(key[n - 1]), key[n])
  }

  predicate IsCredentialWord(word: string) {
    word in {
      "password", "passwd", "pwd", "secret", "client_secret", "apikey", "api_key", "access_token", "refresh_token",
      "auth_token", "bearer_token", "id_token", "private_key", "credential", "credentials", "authorization"}
  }

  /** The text is a credential's word, or ends in one behind an underscore. */
  ghost predicate EndsInWord(k: string) {
    exists front, word ::
      k == front + word && IsCredentialWord(word) && (front == "" || front[|front| - 1] == '_')
  }

  ghost predicate NamesCredential(key: string) {
    EndsInWord(Spelling(key))
  }

  function SpelledOn(before: char, key: string): string
    decreases |key|
  {
    if key == [] then [] else Respelled(Some(before), key[0]) + SpelledOn(key[0], key[1..])
  }

  function SpelledFirst(c: char, inRun: bool): string {
    if IsJoint(c) then (if inRun then "" else "_") else [LowerChar(c)]
  }

  lemma {:induction false} NormalizedOn(key: string, inRun: bool)
    requires key != []
    ensures Lower(JoinWords(SplitCamel(key), inRun)) == SpelledFirst(key[0], inRun) + SpelledOn(key[0], key[1..])
    decreases |key|
  {
    hide Lower, IsSpace, SplitCamel, JoinWords, Respelled, SpelledFirst, SpelledOn;
    var c := key[0];
    if |key| == 1 {
      FirstJoined(c, [], inRun);
      NothingMore(c);
      assert key == [c] && key[1..] == [] && [c] + [] == [c];
    } else {
      SplitOnce(key);
      NormalizedOn(key[1..], IsJoint(c));
      NextJoined(c, key[1], key[1..], inRun);
    }
  }

  lemma NothingMore(c: char)
    ensures SplitCamel([c]) == [c] && JoinWords([], IsJoint(c)) == [] && SpelledOn(c, []) == [] && Lower([]) == []
  {}

  predicate Breaks(c: char, d: char) {
    ('a' <= c <= 'z' || '0' <= c <= '9') && 'A' <= d <= 'Z'
  }

  lemma SplitOnce(key: string)
    requires |key| >= 2
    ensures SplitCamel(key) == [key[0]] + ((if Breaks(key[0], key[1]) then "_" else "") + SplitCamel(key[1..]))
  {}

  /** One more character, and whether a word's border is before the next. */
  lemma {:induction false} NextJoined(c: char, d: char, tail: string, inRun: bool)
    requires tail != [] && tail[0] == d
    requires Lower(JoinWords(SplitCamel(tail), IsJoint(c))) == SpelledFirst(d, IsJoint(c)) + SpelledOn(d, tail[1..])
    ensures Lower(JoinWords([c] + ((if Breaks(c, d) then "_" else "") + SplitCamel(tail)), inRun))
      == SpelledFirst(c, inRun) + SpelledOn(c, tail)
  {
    hide Lower, IsSpace, SplitCamel, JoinWords;
    var rest := SplitCamel(tail);
    FirstJoined(c, (if Breaks(c, d) then "_" else "") + rest, inRun);
    JointsAre(c);
    JointsAre(d);
    var t := SpelledOn(d, tail[1..]);
    assert SpelledOn(c, tail) == Respelled(Some(c), d) + t;
    if Breaks(c, d) {
      NoJoint(c);
      NoJoint('_');
      FirstJoined('_', rest, false);
      CapitalIsNoJoint(d);
      assert "_" + ([LowerChar(d)] + t) == ("_" + [LowerChar(d)]) + t;
    } else {
      assert "" + rest == rest;
      assert Respelled(Some(c), d) == SpelledFirst(d, IsJoint(c)) by { RespelledPlain(c, d); }
    }
  }

  lemma CapitalIsNoJoint(d: char)
    requires 'A' <= d <= 'Z'
    ensures !IsJoint(d) && LowerChar(d) == d + 32 as char
  {}

  lemma RespelledPlain(c: char, d: char)
    requires !Breaks(c, d)
    ensures Respelled(Some(c), d) == SpelledFirst(d, IsJoint(c))
  {}

  lemma NoJoint(c: char)
    requires 'a' <= c <= 'z' || '0' <= c <= '9' || c == '_'
    ensures !IsJoint(c) && LowerChar(c) == c
  {}

  lemma JointsAre(c: char)
    ensures IsJoint(c) <==> c == '-' || c == '.' || IsSpace(c)
  {}

  lemma {:induction false} FirstJoined(c: char, rest: string, inRun: bool)
    ensures Lower(JoinWords([c] + rest, inRun)) == SpelledFirst(c, inRun) + Lower(JoinWords(rest, IsJoint(c)))
    ensures Lower([]) == []
  {
    assert ([c] + rest)[1..] == rest;
    var after := JoinWords(rest, IsJoint(c));
    assert LowerChar('_') == '_';
    assert ['_'] + after == "_" + after && (['_'] + after)[1..] == after && ([c] + after)[1..] == after;
    assert [] + after == after;
  }

  lemma {:induction false} SpellingOn(front: string, key: string)
    requires front != []
    ensures Spelling(front + key) == Spelling(front) + SpelledOn(front[|front| - 1], key)
    decreases |key|
  {
    if key == [] {
      assert front + key == front;
    } else {
      var next := front + [key[0]];
      assert front + key == next + key[1..];
      assert next[..|front|] == front;
      SpellingOn(next, key[1..]);
    }
  }

  lemma {:induction false} NormalizedIsSpelling(key: string)
    ensures NormalizeKey(key) == Spelling(key)
  {
    hide SplitCamel, JoinWords, Lower, IsSpace;
    if key == [] {
      EmptyKey();
    } else {
      NormalizedOn(key, false);
      assert key == [key[0]] + key[1..];
      SpellingOn([key[0]], key[1..]);
      JointsAre(key[0]);
      assert Spelling([key[0]]) == Respelled(None, key[0]) by {
        assert [key[0]][..0] == [] && Spelling([]) == [];
      }
    }
  }

  lemma EmptyKey()
    ensures NormalizeKey("") == ""
  {}

  /** A key is taken for a credential's exactly when its spelling ends in one of the words, on a word's border. */
  lemma {:induction false} SecretExactlyWhen(key: string)
    ensures IsSecretKey(key) <==> NamesCredential(key)
  {
    hide NormalizeKey, Spelling, EndsInWord, IsSecretKey;
    NormalizedIsSpelling(key);
    SecretEnds(key);
  }

  lemma {:induction false} SecretEnds(key: string)
    ensures IsSecretKey(key) <==> EndsInWord(NormalizeKey(key))
  {
    hide NormalizeKey, IsCredentialWord, IsLast;
    WordsAre();
    var k := NormalizeKey(key);
    if IsSecretKey(key) {
      var word :| word in WORDS && IsLast(k, word);
      var front := BeforeLast(k, word);
    }
    if EndsInWord(k) {
      var front, word :| k == front + word && IsCredentialWord(word) && (front == "" || front[|front| - 1] == '_');
      LastBehind(front, word);
    }
  }

  lemma {:induction false} BeforeLast(k: string, word: string) returns (front: string)
    requires IsLast(k, word)
    ensures k == front + word && (front == "" || front[|front| - 1] == '_')
  {
    front := k[..|k| - |word|];
  }

  lemma {:induction false} LastBehind(front: string, word: string)
    requires front == "" || front[|front| - 1] == '_'
    ensures IsLast(front + word, word)
  {
    assert (front + word)[|front|..] == word;
  }

  lemma WordsAre()
    ensures forall w :: w in WORDS <==> IsCredentialWord(w)
  {}

  /** A member that holds a credential: a text that is not empty, under a key that names one. */
  ghost predicate HoldsCredential(m: Member) {
    m.value.Str? && m.value.s != "" && NamesCredential(m.key)
  }

  lemma SecretMembers(m: Member)
    ensures IsSecret(m) <==> HoldsCredential(m)
  {
    SecretExactlyWhen(m.key);
  }

  // --- The trails -------------------------------------------------------------

  /** The trail leads to a credential, and no earlier member on it is one itself. */
  ghost predicate Leads(canon: string -> Option<string>, v: Json, trail: Trail)
    decreases |trail|
  {
    trail != [] &&
    match trail[0]
    case Index(i) => v.Arr? && i < |v.items| && Leads(canon, Inside(canon, v.items[i]), trail[1..])
    case Key(k) => v.Obj? && exists m :: (m in v.members && m.key == k
      && if HoldsCredential(m) then |trail| == 1 else Leads(canon, Inside(canon, m.value), trail[1..]))
  }

  /** The trail leads to a credential, whatever it passes through. */
  ghost predicate Exposes(canon: string -> Option<string>, v: Json, trail: Trail)
    decreases |trail|
  {
    trail != [] &&
    match trail[0]
    case Index(i) => v.Arr? && i < |v.items| && Exposes(canon, Inside(canon, v.items[i]), trail[1..])
    case Key(k) => v.Obj? && exists m :: (m in v.members && m.key == k
      && if |trail| == 1 then HoldsCredential(m) else Exposes(canon, Inside(canon, m.value), trail[1..]))
  }

  /** The trails found are exactly those that lead to a credential. */
  lemma {:induction false} WalkFindsAll(canon: string -> Option<string>, v: Json, at: Trail, t: Trail)
    ensures t in Walk(canon, v, at) <==> at <= t && Leads(canon, v, t[|at|..])
    decreases Weight(v), 0
  {
    match v
    case Arr(items) => ItemsFindAll(canon, items, at, t);
    case Obj(members) => MembersFindAll(canon, members, at, t);
    case _ =>
  }

  lemma {:induction false} ItemsFindAll(canon: string -> Option<string>, items: seq<Json>, at: Trail, t: Trail)
    ensures t in WalkItems(canon, items, at) <==> at <= t && Leads(canon, Arr(items), t[|at|..])
    decreases WeightOfItems(items), 1
  {
    if items != [] {
      var n := |items| - 1;
      ItemsFindAll(canon, items[..n], at, t);
      WalkFindsAll(canon, NestedJson(canon, items[n]), at + [Index(n)], t);
      NestedIsInside(canon, items[n]);
      hide Walk, NestedJson, Inside;
      Extends(at, Index(n), t);
    }
  }

  lemma {:induction false} MembersFindAll(canon: string -> Option<string>, members: seq<Member>, at: Trail, t: Trail)
    ensures t in WalkMembers(canon, members, at) <==> at <= t && Leads(canon, Obj(members), t[|at|..])
    decreases WeightOfMembers(members), 1
  {
    hide Leads, Walk, NestedJson, IsSecret, HoldsCredential, Inside;
    if members == [] {
      NoMembersLead(canon, if at <= t then t[|at|..] else t);
    } else {
      var m := members[|members| - 1];
      var front := members[..|members| - 1];
      MembersFindAll(canon, front, at, t);
      WalkFindsAll(canon, NestedJson(canon, m.value), at + [Key(m.key)], t);
      Extends(at, Key(m.key), t);
      NestedIsInside(canon, m.value);
      SecretMembers(m);
      assert members == front + [m];
      assert t == at + [Key(m.key)] <==> at <= t && |t| == |at| + 1 && t[|at|] == Key(m.key);
      LastMemberLeads(canon, front, m, if at <= t then t[|at|..] else t);
    }
  }

  lemma NoMembersLead(canon: string -> Option<string>, trail: Trail)
    ensures !Leads(canon, Obj([]), trail)
  {}

  lemma {:induction false} LastMemberLeads(
      canon: string -> Option<string>, front: seq<Member>, m: Member, trail: Trail)
    ensures Leads(canon, Obj(front + [m]), trail) <==>
      || Leads(canon, Obj(front), trail)
      || (&& trail != [] && trail[0] == Key(m.key)
          && if HoldsCredential(m) then |trail| == 1 else Leads(canon, Inside(canon, m.value), trail[1..]))
  {
    hide Inside, HoldsCredential;
    assert forall x :: x in front + [m] <==> x in front || x == m;
  }

  lemma Extends(at: Trail, step: Step, t: Trail)
    ensures at + [step] <= t <==> at <= t && |t| > |at| && t[|at|] == step
    ensures at + [step] <= t ==> t[|at + [step]|..] == t[|at|..][1..] && t[|at|..][0] == step
  {}

  /** A trail to a credential, cut at the first credential it meets. */
  lemma {:induction false} FirstOnTrail(canon: string -> Option<string>, v: Json, trail: Trail) returns (first: Trail)
    requires Exposes(canon, v, trail)
    ensures Leads(canon, v, first)
    decreases |trail|
  {
    match trail[0]
    case Index(i) =>
      var rest := FirstOnTrail(canon, Inside(canon, v.items[i]), trail[1..]);
      first := [trail[0]] + rest;
      assert first[1..] == rest;
    case Key(k) =>
      var m :| m in v.members && m.key == k &&
        if |trail| == 1 then HoldsCredential(m) else Exposes(canon, Inside(canon, m.value), trail[1..]);
      if HoldsCredential(m) {
        first := [trail[0]];
      } else {
        var rest := FirstOnTrail(canon, Inside(canon, m.value), trail[1..]);
        first := [trail[0]] + rest;
        assert first[1..] == rest;
      }
  }

  lemma {:induction false} LeadsExposes(canon: string -> Option<string>, v: Json, trail: Trail)
    requires Leads(canon, v, trail)
    ensures Exposes(canon, v, trail)
    decreases |trail|
  {
    match trail[0]
    case Index(i) => LeadsExposes(canon, Inside(canon, v.items[i]), trail[1..]);
    case Key(k) =>
      var m :| m in v.members && m.key == k &&
        if HoldsCredential(m) then |trail| == 1 else Leads(canon, Inside(canon, m.value), trail[1..]);
      if !HoldsCredential(m) {
        LeadsExposes(canon, Inside(canon, m.value), trail[1..]);
      }
  }

  /**
    A column is reported clean exactly when no chain of members, items and encoded
    strings, however deep, reaches a non-empty string under a credential's key.
   */
  lemma {:induction false} CleanMeansNoCredential(canon: string -> Option<string>, v: Json)
    ensures Walk(canon, v, []) == [] <==> !exists trail :: Exposes(canon, v, trail)
  {
    hide WalkItems, WalkMembers, Inside, HoldsCredential;
    if trail :| Exposes(canon, v, trail) {
      ExposedIsFound(canon, v, trail);
    }
    if Walk(canon, v, []) != [] {
      FoundIsExposed(canon, v, Walk(canon, v, [])[0]);
    }
  }

  lemma {:induction false} ExposedIsFound(canon: string -> Option<string>, v: Json, trail: Trail)
    requires Exposes(canon, v, trail)
    ensures Walk(canon, v, []) != []
  {
    hide WalkItems, WalkMembers, Inside, HoldsCredential, Leads;
    var first := FirstOnTrail(canon, v, trail);
    WalkFindsAll(canon, v, [], first);
    assert first[0..] == first;
  }

  lemma {:induction false} FoundIsExposed(canon: string -> Option<string>, v: Json, t: Trail)
    requires t in Walk(canon, v, [])
    ensures Exposes(canon, v, t)
  {
    hide WalkItems, WalkMembers, Inside, HoldsCredential;
    WalkFindsAll(canon, v, [], t);
    assert t[0..] == t;
    LeadsExposes(canon, v, t);
  }

  // --- The paths reported -----------------------------------------------------

  function ChildPath(path: string, step: Step): string {
    match step
    case Key(k) => if path != "" then path + "." + k else k
    case Index(i) => path + "[" + Decimal.NatText(i) + "]"
  }

  function PathOf(trail: Trail): string {
    if trail == [] then "" else ChildPath(PathOf(trail[..|trail| - 1]), trail[|trail| - 1])
  }

  function PathsOf(trails: seq<Trail>): (r: seq<string>)
    ensures |r| == |trails| && forall i :: 0 <= i < |r| ==> r[i] == PathOf(trails[i])
  {
    seq(|trails|, i requires 0 <= i < |trails| => PathOf(trails[i]))
  }

  lemma PathsOfConcat(a: seq<Trail>, b: seq<Trail>)
    ensures PathsOf(a + b) == PathsOf(a) + PathsOf(b)
  {}

  lemma PathOfStep(at: Trail, step: Step)
    ensures PathOf(at + [step]) == ChildPath(PathOf(at), step)
  {}

  /** The paths of the credentials in a column's text; none for text that is not JSON. */
  method FindSecretJsonPaths(canon: string -> Option<string>, raw: string) returns (found: seq<string>)
    ensures var v := if Blank(raw) then None else Parse(canon, raw);
      found == if v.None? then [] else PathsOf(Walk(canon, v.value, []))
  {
    found := [];
    if Blank(raw) { return; }
    var parsed := Parse(canon, raw);
    if parsed.None? { return; }
    found := WalkNode(canon, parsed.value, "", [], found);
  }

  method WalkNode(canon: string -> Option<string>, node: Json, path: string, ghost at: Trail, before: seq<string>)
    returns (found: seq<string>)
    requires path == PathOf(at)
    ensures found == before + PathsOf(Walk(canon, node, at))
    decreases Weight(node)
  {
    hide IsSecret, NestedJson, PathOf, PathsOf, Walk, WalkItems, WalkMembers, Weight, ChildPath;
    WalkSplits(canon, node, at);
    found := before;
    if node.Arr? {
      for i := 0 to |node.items|
        invariant found == before + PathsOf(WalkItems(canon, node.items[..i], at))
      {
        LighterItem(node.items, i);
        assert node == Arr(node.items);
        PathOfStep(at, Index(i));
        found := WalkNode(canon, NestedJson(canon, node.items[i]), ChildPath(path, Index(i)), at + [Index(i)], found);
        NextItem(canon, node.items, i, at);
      }
      assert node.items[..|node.items|] == node.items && node == Arr(node.items);
    } else if node.Obj? {
      for i := 0 to |node.members|
        invariant found == before + PathsOf(WalkMembers(canon, node.members[..i], at))
      {
        var m := node.members[i];
        PathOfStep(at, Key(m.key));
        NextMember(canon, node.members, i, at);
        if IsSecret(m) {
          found := found + [ChildPath(path, Key(m.key))];
        } else {
          LighterMember(node.members, i);
          assert node == Obj(node.members);
          found := WalkNode(canon, NestedJson(canon, m.value), ChildPath(path, Key(m.key)), at + [Key(m.key)], found);
        }
      }
      assert node.members[..|node.members|] == node.members;
    }
  }

  lemma WalkSplits(canon: string -> Option<string>, node: Json, at: Trail)
    ensures PathsOf([]) == [] && WalkItems(canon, [], at) == [] && WalkMembers(canon, [], at) == []
    ensures Walk(canon, node, at) ==
      if node.Arr? then WalkItems(canon, node.items, at)
      else if node.Obj? then WalkMembers(canon, node.members, at) else []
  {}

  lemma {:induction false} NextItem(canon: string -> Option<string>, items: seq<Json>, i: nat, at: Trail)
    requires i < |items|
    ensures PathsOf(WalkItems(canon, items[..i + 1], at)) == PathsOf(WalkItems(canon, items[..i], at))
      + PathsOf(Walk(canon, NestedJson(canon, items[i]), at + [Index(i)]))
  {
    hide Walk, NestedJson, PathsOf;
    assert items[..i + 1][..i] == items[..i];
    PathsOfConcat(WalkItems(canon, items[..i], at), Walk(canon, NestedJson(canon, items[i]), at + [Index(i)]));
  }

  lemma {:induction false} NextMember(canon: string -> Option<string>, members: seq<Member>, i: nat, at: Trail)
    requires i < |members|
    ensures var m := members[i];
      PathsOf(WalkMembers(canon, members[..i + 1], at)) == PathsOf(WalkMembers(canon, members[..i], at))
        + (if IsSecret(m) then [PathOf(at + [Key(m.key)])]
           else PathsOf(Walk(canon, NestedJson(canon, m.value), at + [Key(m.key)])))
  {
    hide Walk, NestedJson, PathOf, IsSecret;
    var m := members[i];
    assert members[..i + 1][..i] == members[..i];
    PathsOfConcat(WalkMembers(canon, members[..i], at),
      if IsSecret(m) then [at + [Key(m.key)]] else Walk(canon, NestedJson(canon, m.value), at + [Key(m.key)]));
  }

  lemma {:induction false} LighterItem(items: seq<Json>, i: nat)
    requires i < |items|
    ensures Weight(items[i]) < Weight(Arr(items))
    decreases |items|
  {
    if i < |items| - 1 {
      LighterItem(items[..|items| - 1], i);
    }
  }

  lemma {:induction false} LighterMember(members: seq<Member>, i: nat)
    requires i < |members|
    ensures Weight(members[i].value) < Weight(Obj(members))
    decreases |members|
  {
    if i < |members| - 1 {
      LighterMember(members[..|members| - 1], i);
    }
  }
}
