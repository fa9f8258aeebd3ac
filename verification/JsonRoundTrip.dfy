/** Both printers are undone by the parser, and the parser yields only values in print order. */
module JsonRoundTrip {
  import opened Collections
  import opened Decimal
  import opened JsonText

  /** Each key once, in the order an object enumerates them. */
  ghost predicate InOrder(members: seq<Member>) {
    forall i, j :: 0 <= i < j < |members| ==>
      members[i].key != members[j].key && Before(members[i].key, members[j].key)
  }

  /** What parsing can give: canonical numbers, and members in order. */
  ghost predicate Normal(canon: string -> Option<string>, v: Json) {
    match v
    case Num(text) => IsNumber(text) && canon(text) == Some(text)
    case Arr(items) => forall i :: 0 <= i < |items| ==> Normal(canon, items[i])
    case Obj(members) => InOrder(members) && forall i :: 0 <= i < |members| ==> Normal(canon, members[i].value)
    case _ => true
  }

  /** A value as it comes back from print: numbers past the range have become null. */
  function Settle(v: Json): Json {
    match v
    case Overflow => Null
    case Arr(items) => Arr(SettleItems(items))
    case Obj(members) => Obj(SettleMembers(members))
    case _ => v
  }

  function SettleItems(items: seq<Json>): (r: seq<Json>)
    ensures |r| == |items|
  {
    if items == [] then [] else [Settle(items[0])] + SettleItems(items[1..])
  }

  function SettleMembers(members: seq<Member>): (r: seq<Member>)
    ensures |r| == |members| && forall i :: 0 <= i < |r| ==> r[i].key == members[i].key
  {
    if members == [] then []
    else [Member(members[0].key, Settle(members[0].value))] + SettleMembers(members[1..])
  }

  // --- Spaces and numbers -----------------------------------------------------

  lemma SkipsBreak(space: string, s: string)
    requires forall c :: c in space ==> IsWs(c)
    requires s != [] ==> !IsWs(s[0])
    ensures SkipWs(space + s) == s
  {
    if space == [] {
      assert space + s == s;
    } else {
      assert space[0] in space;
      assert (space + s)[1..] == space[1..] + s;
      SkipsBreak(space[1..], s);
    }
  }

  /** What may follow a number without becoming part of it. */
  predicate Stops(rest: string) {
    rest == [] || (!IsDigit(rest[0]) && rest[0] !in {'.', 'e', 'E', '+', '-'})
  }

  lemma DigitRunStops(s: string, rest: string)
    requires Stops(rest)
    ensures DigitRun(s + rest) == DigitRun(s)
  {
    if s == [] {
      assert s + rest == rest;
    } else {
      assert (s + rest)[1..] == s[1..] + rest;
      DigitRunStops(s[1..], rest);
    }
  }

  lemma {:induction false} IntStops(s: string, rest: string)
    requires Stops(rest)
    ensures IntLength(s + rest) == IntLength(s)
  {
    DigitRunStops(s, rest);
    assert s == [] ==> s + rest == rest;
  }

  lemma {:induction false} FracStops(s: string, rest: string)
    requires Stops(rest)
    ensures FracLength(s + rest) == FracLength(s)
  {
    if s == [] {
      assert s + rest == rest;
    } else {
      assert (s + rest)[1..] == s[1..] + rest;
      DigitRunStops(s[1..], rest);
    }
  }

  lemma SignStops(s: string, rest: string)
    requires Stops(rest)
    ensures SignLength(s + rest) == SignLength(s)
  {}

  lemma {:induction false} ExpStops(s: string, rest: string)
    requires Stops(rest)
    ensures ExpLength(s + rest) == ExpLength(s)
  {
    hide DigitRun, SignLength;
    if s == [] {
      assert s + rest == rest;
    } else {
      var t := s[1..];
      assert (s + rest)[1..] == t + rest;
      SignStops(t, rest);
      var sign := SignLength(t);
      assert (t + rest)[sign..] == t[sign..] + rest;
      DigitRunStops(t[sign..], rest);
    }
  }

  lemma {:induction false} NumberStops(s: string, rest: string)
    requires Stops(rest) && IsNumber(s)
    ensures NumberLength(s + rest) == Some(|s|)
  {
    hide IntLength, FracLength, ExpLength, Stops;
    var minus := if s[0] == '-' then 1 else 0;
    assert (s + rest)[minus..] == s[minus..] + rest;
    IntStops(s[minus..], rest);
    var p := minus + IntLength(s[minus..]).value;
    assert (s + rest)[p..] == s[p..] + rest;
    FracStops(s[p..], rest);
    var q := p + FracLength(s[p..]).value;
    assert (s + rest)[q..] == s[q..] + rest;
    ExpStops(s[q..], rest);
  }

  lemma NumberHead(s: string)
    requires IsNumber(s)
    ensures s != [] && (s[0] == '-' || IsDigit(s[0]))
  {}

  // --- Strings ----------------------------------------------------------------

  lemma ShortEscape(c: char, x: char, rest: string)
    requires x != 'u' && Unescaped(x) == Some(c)
    ensures Chars(['\\', x] + rest) == Prepend(c, Chars(rest))
  {}

  lemma PlainChar(c: char, rest: string)
    requires c >= ' ' && c != '"' && c != '\\'
    ensures Chars([c] + rest) == Prepend(c, Chars(rest))
  {}

  /** One escaped character is read back, whatever follows it. */
  lemma {:induction false} CharOfEscape(c: char, rest: string)
    ensures Chars(EscapedChar(c) + rest) == Prepend(c, Chars(rest))
  {
    hide Chars, UnicodeEscape;
    if |EscapedChar(c)| == 6 {
      ControlOfEscape(c, rest);
    } else if |EscapedChar(c)| == 1 {
      PlainChar(c, rest);
    } else {
      ShortEscape(c, EscapedChar(c)[1], rest);
      assert EscapedChar(c) == ['\\', EscapedChar(c)[1]];
    }
  }

  lemma ControlOfEscape(c: char, rest: string)
    requires |EscapedChar(c)| == 6
    ensures Chars(EscapedChar(c) + rest) == Prepend(c, Chars(rest))
  {}

  lemma {:induction false} CharsOfQuote(s: string, rest: string)
    ensures Chars(Escaped(s) + ['"'] + rest) == Ok(s, rest)
  {
    if s == [] {
      assert Escaped(s) + ['"'] + rest == ['"'] + rest;
    } else {
      var tail := Escaped(s[1..]) + ['"'] + rest;
      assert Escaped(s) + ['"'] + rest == EscapedChar(s[0]) + tail;
      CharOfEscape(s[0], tail);
      CharsOfQuote(s[1..], rest);
      assert s == [s[0]] + s[1..];
    }
  }

  // --- Objects ----------------------------------------------------------------

  /** Assigning properties in their own order builds the same order. */
  lemma {:induction false} PutInOrder(members: seq<Member>, m: Member)
    requires InOrder(members + [m])
    ensures Put(members, m) == members + [m]
  {
    forall i | 0 <= i < |members| ensures members[i].key != m.key && Before(members[i].key, m.key) {
      var all := members + [m];
      assert all[i] == members[i] && all[|members|] == m;
    }
  }

  lemma {:induction false} SettledPrefix(done: seq<Member>, members: seq<Member>)
    requires members != [] && InOrder(done + SettleMembers(members))
    ensures var m := Member(members[0].key, Settle(members[0].value));
      && Put(done, m) == done + [m]
      && done + SettleMembers(members) == done + [m] + SettleMembers(members[1..])
  {
    hide InOrder, Before, Put, Settle;
    var m := Member(members[0].key, Settle(members[0].value));
    Reassociate(done, m, SettleMembers(members[1..]));
    InOrderPrefix(done + [m], done + [m] + SettleMembers(members[1..]));
    PutInOrder(done, m);
  }

  lemma Reassociate(done: seq<Member>, m: Member, rest: seq<Member>)
    ensures done + ([m] + rest) == done + [m] + rest
  {}

  lemma InOrderPrefix(front: seq<Member>, all: seq<Member>)
    requires front <= all && InOrder(all)
    ensures InOrder(front)
  {}

  // --- Print, then parse ------------------------------------------------------

  lemma PrintHead(canon: string -> Option<string>, v: Json, style: Style, depth: nat)
    requires Normal(canon, v)
    ensures var p := Print(v, style, depth);
      p != [] && !IsWs(p[0]) && p[0] != ']' && p[0] != '}'
  {}

  lemma {:induction false} ValueOfPrint(
      canon: string -> Option<string>, v: Json, style: Style, depth: nat, rest: string)
    requires Normal(canon, v) && Stops(rest)
    ensures Value(canon, Print(v, style, depth) + rest) == Ok(Settle(v), rest)
    decreases v, 2
  {
    hide Value, Print, SettleItems, SettleMembers;
    match v
    case Arr(items) => ArrayOfPrint(canon, v, style, depth, rest);
    case Obj(members) => ObjectOfPrint(canon, v, style, depth, rest);
    case _ => ScalarOfPrint(canon, v, style, depth, rest);
  }

  lemma {:induction false} ScalarOfPrint(
      canon: string -> Option<string>, v: Json, style: Style, depth: nat, rest: string)
    requires Normal(canon, v) && Stops(rest) && !v.Arr? && !v.Obj?
    ensures Value(canon, Print(v, style, depth) + rest) == Ok(Settle(v), rest)
  {
    hide NumberLength, Chars, Escaped, SkipWs, Items, Members, Stops, Normal;
    var s := Print(v, style, depth) + rest;
    match v
    case Bool(b) => WordOfPrint(canon, b, rest);
    case Num(text) => NumberOfPrint(canon, v, rest);
    case Str(str) =>
      assert s[0] == '"' && s[1..] == Escaped(str) + ['"'] + rest;
      CharsOfQuote(str, rest);
    case Null => assert s[4..] == rest;
    case Overflow => assert s[4..] == rest;
  }

  lemma {:induction false} WordOfPrint(canon: string -> Option<string>, b: bool, rest: string)
    ensures Value(canon, (if b then "true" else "false") + rest) == Ok(Bool(b), rest)
  {
    hide NumberLength, Chars, SkipWs, Items, Members;
    var s := (if b then "true" else "false") + rest;
    if b {
      assert s[0] == 't' && s[4..] == rest;
    } else {
      assert s[0] == 'f' && "false" <= s && s[5..] == rest;
    }
  }

  lemma {:induction false} NumberOfPrint(canon: string -> Option<string>, v: Json, rest: string)
    requires v.Num? && Normal(canon, v) && Stops(rest)
    ensures Value(canon, v.text + rest) == Ok(v, rest)
  {
    hide NumberLength, Chars, SkipWs, Items, Members, Stops;
    NumberHead(v.text);
    NumberStops(v.text, rest);
    var s := v.text + rest;
    assert s[0] == v.text[0];
    assert s[..|v.text|] == v.text && s[|v.text|..] == rest;
  }

  /** An array's text after its bracket is read item by item. */
  lemma ValueOfArray(canon: string -> Option<string>, u: string)
    requires SkipWs(u) != []
    ensures Value(canon, ['['] + u) ==
      if SkipWs(u)[0] == ']' then Ok(Arr([]), SkipWs(u)[1..]) else Items(canon, SkipWs(u), [])
  {}

  lemma {:induction false} ValueOfObject(canon: string -> Option<string>, u: string)
    requires SkipWs(u) != []
    ensures Value(canon, ['{'] + u) ==
      if SkipWs(u)[0] == '}' then Ok(Obj([]), SkipWs(u)[1..]) else Members(canon, SkipWs(u), [])
  {
    hide SkipWs, Items, Members, NumberLength, Chars;
    var s := ['{'] + u;
    assert s[0] == '{' && s[1..] == u;
  }

  /** What follows an opening bracket or brace when the value is printed. */
  function Inside(v: Json, style: Style, depth: nat): string
    requires v.Arr? || v.Obj?
  {
    if v.Arr? then (if v.items == [] then "]" else PrintItems(v.items, style, depth))
    else if v.members == [] then "}"
    else PrintMembers(v.members, style, depth)
  }

  lemma OpensWith(v: Json, style: Style, depth: nat, rest: string)
    requires v.Arr? || v.Obj?
    ensures Print(v, style, depth) + rest == (if v.Arr? then ['['] else ['{']) + (Inside(v, style, depth) + rest)
    ensures v.Arr? && v.items == [] ==> SkipWs(Inside(v, style, depth) + rest) == [']'] + rest
    ensures v.Obj? && v.members == [] ==> SkipWs(Inside(v, style, depth) + rest) == ['}'] + rest
  {}

  lemma {:induction false} ArrayOfPrint(
      canon: string -> Option<string>, v: Json, style: Style, depth: nat, rest: string)
    requires v.Arr? && forall i :: 0 <= i < |v.items| ==> Normal(canon, v.items[i])
    ensures Value(canon, Print(v, style, depth) + rest) == Ok(Arr(SettleItems(v.items)), rest)
    decreases v, 1
  {
    hide SkipWs, Items, Value, Print, PrintItems, Normal;
    OpensWith(v, style, depth, rest);
    if v.items == [] {
      ValueOfArray(canon, Inside(v, style, depth) + rest);
      assert ([']'] + rest)[1..] == rest;
    } else {
      ItemsOfPrint(canon, v.items, [], style, depth, rest);
      ValueOfArray(canon, Inside(v, style, depth) + rest);
      assert [] + SettleItems(v.items) == SettleItems(v.items);
    }
  }

  lemma {:induction false} ObjectOfPrint(
      canon: string -> Option<string>, v: Json, style: Style, depth: nat, rest: string)
    requires v.Obj? && InOrder(v.members) && forall i :: 0 <= i < |v.members| ==> Normal(canon, v.members[i].value)
    ensures Value(canon, Print(v, style, depth) + rest) == Ok(Obj(SettleMembers(v.members)), rest)
    decreases v, 1
  {
    hide SkipWs, Members, Value, Print, PrintMembers, Normal, InOrder;
    OpensWith(v, style, depth, rest);
    if v.members == [] {
      ValueOfObject(canon, Inside(v, style, depth) + rest);
      assert (['}'] + rest)[1..] == rest;
    } else {
      SettledInOrder(v.members);
      assert [] + SettleMembers(v.members) == SettleMembers(v.members);
      MembersOfPrint(canon, v.members, [], style, depth, rest);
      ValueOfObject(canon, Inside(v, style, depth) + rest);
    }
  }

  lemma SettledInOrder(members: seq<Member>)
    requires InOrder(members)
    ensures InOrder(SettleMembers(members))
  {}

  /** A printed value after a line break, and then the closing bracket. */
  lemma {:induction false} LastItem(
      canon: string -> Option<string>, p: string, v: Json, style: Style, depth: nat, done: seq<Json>, rest: string)
    requires p != [] && !IsWs(p[0])
    requires var tail := Break(style, depth) + ([']'] + rest); Value(canon, p + tail) == Ok(v, tail)
    ensures var tail := Break(style, depth) + ([']'] + rest);
      && SkipWs(Break(style, depth + 1) + (p + tail)) == p + tail
      && Items(canon, p + tail, done) == Ok(Arr(done + [v]), rest)
  {
    hide Value, Break, SkipWs;
    var tail := Break(style, depth) + ([']'] + rest);
    SkipsBreak(Break(style, depth + 1), p + tail);
    SkipsBreak(Break(style, depth), [']'] + rest);
    assert ([']'] + rest)[1..] == rest;
  }

  /** A printed value after a line break, and then more items. */
  lemma {:induction false} NextItem(
      canon: string -> Option<string>, p: string, v: Json, style: Style, depth: nat, done: seq<Json>, more: string)
    requires p != [] && !IsWs(p[0])
    requires Value(canon, p + ([','] + more)) == Ok(v, [','] + more)
    ensures var tail := [','] + more;
      && SkipWs(Break(style, depth + 1) + (p + tail)) == p + tail
      && Items(canon, p + tail, done) == Items(canon, SkipWs(more), done + [v])
  {
    hide Value, Break, SkipWs;
    var tail := [','] + more;
    SkipsBreak(Break(style, depth + 1), p + tail);
    SkipsBreak([], tail);
    assert [] + tail == tail && tail[1..] == more;
  }

  lemma ItemsShape(items: seq<Json>, style: Style, depth: nat, rest: string)
    requires items != []
    ensures var p := Print(items[0], style, depth + 1);
      PrintItems(items, style, depth) + rest == Break(style, depth + 1) + (p +
        (if |items| == 1 then Break(style, depth) + ([']'] + rest)
         else [','] + (PrintItems(items[1..], style, depth) + rest)))
    ensures SettleItems(items) == [Settle(items[0])] + SettleItems(items[1..])
    ensures |items| == 1 ==> SettleItems(items) == [Settle(items[0])]
  {}

  lemma {:induction false} ItemsOfPrint(
      canon: string -> Option<string>, items: seq<Json>, done: seq<Json>, style: Style, depth: nat, rest: string)
    requires items != [] && forall i :: 0 <= i < |items| ==> Normal(canon, items[i])
    ensures var t := SkipWs(PrintItems(items, style, depth) + rest);
      && t != [] && t[0] != ']'
      && Items(canon, t, done) == Ok(Arr(done + SettleItems(items)), rest)
    decreases items, 1
  {
    hide *;
    var p := Print(items[0], style, depth + 1);
    var v := Settle(items[0]);
    PrintHead(canon, items[0], style, depth + 1);
    ItemsShape(items, style, depth, rest);
    if |items| == 1 {
      var tail := Break(style, depth) + ([']'] + rest);
      TailStops(style, depth, ']', rest);
      ValueOfPrint(canon, items[0], style, depth + 1, tail);
      LastItem(canon, p, v, style, depth, done, rest);
    } else {
      var more := PrintItems(items[1..], style, depth) + rest;
      TailStops(style, depth, ',', more);
      ValueOfPrint(canon, items[0], style, depth + 1, [','] + more);
      NextItem(canon, p, v, style, depth, done, more);
      ItemsOfPrint(canon, items[1..], done + [v], style, depth, rest);
      assert done + ([v] + SettleItems(items[1..])) == done + [v] + SettleItems(items[1..]);
    }
  }

  lemma TailStops(style: Style, depth: nat, c: char, rest: string)
    requires c in {',', ']', '}'}
    ensures Stops([c] + rest) && Stops(Break(style, depth) + ([c] + rest))
  {}

  /** The text of one member up to the end of its value. */
  function Entry(m: Member, style: Style, depth: nat): string {
    Quote(m.key) + Colon(style) + Print(m.value, style, depth)
  }

  /** One member is read: its key, the colon, and the value before `tail`. */
  lemma {:induction false} MemberOfEntry(
      canon: string -> Option<string>, m: Member, style: Style, depth: nat, tail: string)
    requires Normal(canon, m.value)
    requires Value(canon, Print(m.value, style, depth) + tail) == Ok(Settle(m.value), tail)
    ensures var s := Entry(m, style, depth) + tail;
      var t := Colon(style) + (Print(m.value, style, depth) + tail);
      && s != [] && s[0] == '"' && Chars(s[1..]) == Ok(m.key, t)
      && SkipWs(t) == t && t != [] && t[0] == ':'
      && Value(canon, SkipWs(t[1..])) == Ok(Settle(m.value), tail)
  {
    hide Print, Value, Settle, Normal, Chars, Escaped, Colon, SkipWs;
    var p := Print(m.value, style, depth);
    PrintHead(canon, m.value, style, depth);
    var t := Colon(style) + (p + tail);
    EntryOpens(m, style, depth, tail);
    CharsOfQuote(m.key, t);
    ColonSkips(style, p + tail);
  }

  lemma {:induction false} EntryOpens(m: Member, style: Style, depth: nat, tail: string)
    ensures var s := Entry(m, style, depth) + tail;
      && s != [] && s[0] == '"'
      && s[1..] == Escaped(m.key) + ['"'] + (Colon(style) + (Print(m.value, style, depth) + tail))
  {
    hide Escaped, Colon, Print;
  }

  lemma ColonSkips(style: Style, s: string)
    requires s != [] && !IsWs(s[0])
    ensures var t := Colon(style) + s;
      t != [] && t[0] == ':' && SkipWs(t) == t && SkipWs(t[1..]) == s
  {}

  /** A printed member after a line break, and then the closing brace. */
  lemma {:induction false} LastMember(
      canon: string -> Option<string>, m: Member, style: Style, depth: nat, done: seq<Member>, rest: string)
    requires Normal(canon, m.value)
    requires var tail := Break(style, depth) + (['}'] + rest);
      Value(canon, Print(m.value, style, depth + 1) + tail) == Ok(Settle(m.value), tail)
    ensures var t := Entry(m, style, depth + 1) + (Break(style, depth) + (['}'] + rest));
      && t != [] && t[0] == '"'
      && SkipWs(Break(style, depth + 1) + t) == t
      && Members(canon, t, done) == Ok(Obj(Put(done, Member(m.key, Settle(m.value)))), rest)
  {
    hide Print, Value, Settle, Normal, Chars, Put, Colon, Entry, Break, SkipWs;
    var tail := Break(style, depth) + (['}'] + rest);
    MemberOfEntry(canon, m, style, depth + 1, tail);
    SkipsBreak(Break(style, depth), ['}'] + rest);
    assert (['}'] + rest)[1..] == rest;
    SkipsBreak(Break(style, depth + 1), Entry(m, style, depth + 1) + tail);
  }

  /** A printed member after a line break, and then more of them. */
  lemma {:induction false} NextMember(
      canon: string -> Option<string>, m: Member, style: Style, depth: nat, done: seq<Member>, more: string)
    requires Normal(canon, m.value)
    requires Value(canon, Print(m.value, style, depth + 1) + ([','] + more)) == Ok(Settle(m.value), [','] + more)
    ensures var t := Entry(m, style, depth + 1) + ([','] + more);
      && t != [] && t[0] == '"'
      && SkipWs(Break(style, depth + 1) + t) == t
      && Members(canon, t, done) == Members(canon, SkipWs(more), Put(done, Member(m.key, Settle(m.value))))
  {
    hide Print, Value, Settle, Normal, Chars, Put, Colon, Entry, Break, SkipWs;
    var tail := [','] + more;
    MemberOfEntry(canon, m, style, depth + 1, tail);
    SkipsBreak([], tail);
    assert [] + tail == tail && tail[1..] == more;
    SkipsBreak(Break(style, depth + 1), Entry(m, style, depth + 1) + tail);
  }

  lemma {:induction false} MembersShape(members: seq<Member>, style: Style, depth: nat, rest: string)
    requires members != []
    ensures PrintMembers(members, style, depth) + rest ==
      Break(style, depth + 1) + (Entry(members[0], style, depth + 1) +
      (if |members| == 1 then Break(style, depth) + (['}'] + rest)
       else [','] + (PrintMembers(members[1..], style, depth) + rest)))
    ensures |members| == 1 ==> SettleMembers(members[1..]) == []
  {
    hide Print, Break, Settle, Escaped, Quote, Entry, Colon;
    if |members| > 1 {
      JoinsEntry(members[0], style, depth + 1, "," + PrintMembers(members[1..], style, depth));
      assert "," + PrintMembers(members[1..], style, depth) + rest ==
        [','] + (PrintMembers(members[1..], style, depth) + rest);
    } else {
      JoinsEntry(members[0], style, depth + 1, Break(style, depth) + "}");
    }
  }

  lemma JoinsEntry(m: Member, style: Style, depth: nat, tail: string)
    ensures Break(style, depth) + Quote(m.key) + Colon(style) + Print(m.value, style, depth) + tail
      == Break(style, depth) + (Entry(m, style, depth) + tail)
  {}

  lemma {:induction false} MembersOfPrint(
      canon: string -> Option<string>, members: seq<Member>, done: seq<Member>, style: Style, depth: nat, rest: string)
    requires members != [] && forall i :: 0 <= i < |members| ==> Normal(canon, members[i].value)
    requires InOrder(done + SettleMembers(members))
    ensures var t := SkipWs(PrintMembers(members, style, depth) + rest);
      && t != [] && t[0] != '}'
      && Members(canon, t, done) == Ok(Obj(done + SettleMembers(members)), rest)
    decreases members, 1
  {
    hide *;
    var m := members[0];
    SettledPrefix(done, members);
    MembersShape(members, style, depth, rest);
    if |members| == 1 {
      TailStops(style, depth, '}', rest);
      ValueOfPrint(canon, m.value, style, depth + 1, Break(style, depth) + (['}'] + rest));
      LastMember(canon, m, style, depth, done, rest);
      assert done + [Member(m.key, Settle(m.value))] + [] == done + [Member(m.key, Settle(m.value))];
    } else {
      var more := PrintMembers(members[1..], style, depth) + rest;
      TailStops(style, depth, ',', more);
      ValueOfPrint(canon, m.value, style, depth + 1, [','] + more);
      NextMember(canon, m, style, depth, done, more);
      MembersOfPrint(canon, members[1..], done + [Member(m.key, Settle(m.value))], style, depth, rest);
    }
  }

  /** Parsing what either printer wrote gives the value back, with nulls where numbers were past the range. */
  lemma {:induction false} ParseOfPrint(canon: string -> Option<string>, v: Json, style: Style)
    requires Normal(canon, v)
    ensures Parse(canon, Print(v, style, 0)) == Some(Settle(v))
  {
    PrintHead(canon, v, style, 0);
    var p := Print(v, style, 0);
    assert p + [] == p;
    ValueOfPrint(canon, v, style, 0, []);
  }

  /** The same with a final line break. */
  lemma {:induction false} ParseOfPrintedLine(canon: string -> Option<string>, v: Json, style: Style)
    requires Normal(canon, v)
    ensures Parse(canon, Print(v, style, 0) + "\n") == Some(Settle(v))
  {
    hide Value, Print, Settle, Normal;
    PrintHead(canon, v, style, 0);
    ValueOfPrint(canon, v, style, 0, "\n");
    assert SkipWs(Print(v, style, 0) + "\n") == Print(v, style, 0) + "\n";
  }

  /** Printing cannot tell a number past the range from null. */
  lemma {:induction false} PrintOfSettle(v: Json, style: Style, depth: nat)
    ensures Print(Settle(v), style, depth) == Print(v, style, depth)
    decreases v, 0
  {
    match v
    case Arr(items) => if items != [] { ItemsOfSettle(items, style, depth); }
    case Obj(members) => if members != [] { MembersOfSettle(members, style, depth); }
    case _ =>
  }

  lemma {:induction false} ItemsOfSettle(items: seq<Json>, style: Style, depth: nat)
    requires items != []
    ensures PrintItems(SettleItems(items), style, depth) == PrintItems(items, style, depth)
    decreases items, 1
  {
    hide Print, Break, Settle;
    PrintOfSettle(items[0], style, depth + 1);
    if |items| > 1 {
      ItemsOfSettle(items[1..], style, depth);
      assert SettleItems(items)[1..] == SettleItems(items[1..]);
    }
  }

  lemma {:induction false} MembersOfSettle(members: seq<Member>, style: Style, depth: nat)
    requires members != []
    ensures PrintMembers(SettleMembers(members), style, depth) == PrintMembers(members, style, depth)
    decreases members, 1
  {
    hide Print, Break, Settle, Quote, Colon;
    PrintOfSettle(members[0].value, style, depth + 1);
    if |members| > 1 {
      MembersOfSettle(members[1..], style, depth);
      assert SettleMembers(members)[1..] == SettleMembers(members[1..]);
    }
  }

  // --- Parse, then anything ---------------------------------------------------

  ghost predicate AllBefore(members: seq<Member>, key: string) {
    forall m :: m in members ==> m.key != key && Before(m.key, key)
  }

  lemma {:induction false} InOrderSnoc(front: seq<Member>, last: Member)
    ensures InOrder(front + [last]) <==> InOrder(front) && AllBefore(front, last.key)
  {
    hide Before;
    var all := front + [last];
    if InOrder(all) {
      InOrderPrefix(front, all);
      forall m | m in front ensures m.key != last.key && Before(m.key, last.key) {
        var i :| 0 <= i < |front| && front[i] == m;
        assert all[i] == m && all[|front|] == last;
      }
    }
  }

  lemma BeforeOrders(a: string, b: string, c: string)
    ensures Before(a, b) && Before(b, c) ==> Before(a, c)
    ensures a != b ==> Before(a, b) || Before(b, a)
  {}

  function KeySet(members: seq<Member>): set<string> {
    set m | m in members :: m.key
  }

  lemma {:induction false} AllBeforeByKeys(members: seq<Member>, keys: set<string>, key: string)
    requires KeySet(members) <= keys && forall k :: k in keys ==> k != key && Before(k, key)
    ensures AllBefore(members, key)
  {
    hide Before;
    forall m | m in members ensures m.key != key && Before(m.key, key) {
      assert m.key in KeySet(members);
    }
  }

  /** Assigning a property keeps the enumeration order, adds its key, and keeps every other value. */
  lemma {:induction false} PutKeepsOrder(members: seq<Member>, m: Member)
    requires InOrder(members)
    ensures InOrder(Put(members, m)) && KeySet(Put(members, m)) == KeySet(members) + {m.key}
    ensures forall x :: x in Put(members, m) <==> x == m || (x in members && x.key != m.key)
  {
    hide InOrder, Before, AllBefore;
    if members == [] {
      SingleInOrder(m);
    } else {
      var front, last := members[..|members| - 1], members[|members| - 1];
      assert members == front + [last];
      InOrderSnoc(front, last);
      PutCases(front, last, m);
      if last.key == m.key {
        LastIsApart(front, last);
        InOrderSnoc(front, m);
      } else if m.key in KeySet(members) || !Before(last.key, m.key) {
        PutKeepsOrder(front, m);
        PushedBack(front, last, m);
        InOrderSnoc(Put(front, m), last);
      } else {
        AppendedLast(front, last, m);
        InOrderSnoc(members, m);
      }
    }
  }

  lemma SingleInOrder(m: Member)
    ensures InOrder([m])
  {}

  lemma PutCases(front: seq<Member>, last: Member, m: Member)
    ensures var members := front + [last];
      Put(members, m) ==
        if last.key == m.key then front + [m]
        else if m.key in KeySet(members) || !Before(last.key, m.key) then Put(front, m) + [last]
        else members + [m]
  {}

  lemma LastIsApart(front: seq<Member>, last: Member)
    requires AllBefore(front, last.key)
    ensures last.key !in KeySet(front)
  {}

  lemma {:induction false} PushedBack(front: seq<Member>, last: Member, m: Member)
    requires AllBefore(front, last.key) && last.key != m.key
    requires m.key in KeySet(front + [last]) || !Before(last.key, m.key)
    requires KeySet(Put(front, m)) == KeySet(front) + {m.key}
    ensures AllBefore(Put(front, m), last.key)
  {
    hide Put;
    BeforeOrders(last.key, m.key, m.key);
    assert m.key in KeySet(front + [last]) ==> m.key in KeySet(front);
    AllBeforeByKeys(Put(front, m), KeySet(front) + {m.key}, last.key);
  }

  lemma AppendedLast(front: seq<Member>, last: Member, m: Member)
    requires AllBefore(front, last.key) && last.key != m.key
    requires m.key !in KeySet(front + [last]) && Before(last.key, m.key)
    ensures AllBefore(front + [last], m.key)
  {}

  ghost predicate AllNormal(canon: string -> Option<string>, members: seq<Member>) {
    forall m :: m in members ==> Normal(canon, m.value)
  }

  /** Parsing yields canonical numbers and ordered members, at any depth. */
  lemma {:induction false} ValueIsNormal(canon: string -> Option<string>, s: string)
    requires Doubles(canon) && Value(canon, s).Ok?
    ensures Normal(canon, Value(canon, s).value)
    decreases |s|, 0
  {
    if s != [] && s[0] == '[' {
      var t := SkipWs(s[1..]);
      if !(t != [] && t[0] == ']') {
        ItemsAreNormal(canon, t, []);
      }
    } else if s != [] && s[0] == '{' {
      var t := SkipWs(s[1..]);
      if !(t != [] && t[0] == '}') {
        MembersAreNormal(canon, t, []);
      }
    }
  }

  lemma {:induction false} ItemsAreNormal(canon: string -> Option<string>, s: string, done: seq<Json>)
    requires Doubles(canon) && Items(canon, s, done).Ok?
    requires forall i :: 0 <= i < |done| ==> Normal(canon, done[i])
    ensures Normal(canon, Items(canon, s, done).value)
    decreases |s|, 1
  {
    hide Value;
    ValueIsNormal(canon, s);
    var item := Value(canon, s);
    var t := SkipWs(item.rest);
    if t[0] == ',' {
      ItemsAreNormal(canon, SkipWs(t[1..]), done + [item.value]);
    }
  }

  lemma {:induction false} MembersAreNormal(canon: string -> Option<string>, s: string, done: seq<Member>)
    requires Doubles(canon) && Members(canon, s, done).Ok?
    requires InOrder(done) && AllNormal(canon, done)
    ensures Normal(canon, Members(canon, s, done).value)
    decreases |s|, 1
  {
    hide Value, InOrder, Put, Chars;
    var key := Chars(s[1..]);
    var t := SkipWs(key.rest);
    var item := Value(canon, SkipWs(t[1..]));
    ValueIsNormal(canon, SkipWs(t[1..]));
    var u := SkipWs(item.rest);
    PutKeepsOrder(done, Member(key.value, item.value));
    var done1 := Put(done, Member(key.value, item.value));
    if u[0] == ',' {
      MembersAreNormal(canon, SkipWs(u[1..]), done1);
    } else {
      assert forall i :: 0 <= i < |done1| ==> done1[i] in done1;
    }
  }
}
