/**
  What a document's text says before a merge and after it, number by number. Reading
  and writing back goes through doubles, so an entry the batch never names can
  still lose a number.
 */
module CompositeNumbers {
  import opened Collections
  import opened Decimal
  import opened JsText
  import opened PathNames
  import opened JsonText
  import opened JsonRoundTrip
  import opened JsonGrammar
  import opened JsObjects
  import opened SettledObjects
  import opened CompositeDocument
  import opened CompositeMerge

  // --- The number a literal denotes -------------------------------------------

  function Pow10(n: nat): (r: real)
    ensures r > 0.0
  {
    if n == 0 then 1.0 else 10.0 * Pow10(n - 1)
  }

  function Scaled(mantissa: nat, exponent: int): real {
    if exponent >= 0 then mantissa as real * Pow10(exponent) else mantissa as real / Pow10(-exponent)
  }

  /** The digits of a text, without its sign, point or letter. */
  function DigitsOf(s: string): (r: string)
    ensures forall i :: 0 <= i < |r| ==> IsDigit(r[i])
  {
    if s == [] then []
    else
      var front := DigitsOf(s[..|s| - 1]);
      if IsDigit(s[|s| - 1]) then front + [s[|s| - 1]] else front
  }

  predicate Negative(s: string) {
    s != [] && s[0] == '-'
  }

  /** The rational number a literal spells, before any rounding. */
  function NumberValue(s: string): real
    requires IsNumber(s)
  {
    var minus := if s[0] == '-' then 1 else 0;
    var p := minus + IntLength(s[minus..]).value;
    var q := p + FracLength(s[p..]).value;
    var exponent := if q == |s| then 0
      else (if Negative(s[q + 1..]) then -1 else 1) * NatOf(DigitsOf(s[q..]));
    var size := Scaled(NatOf(DigitsOf(s[..q])), exponent - |DigitsOf(s[p..q])|);
    if minus == 1 then -size else size
  }

  predicate SameNumber(a: string, b: string) {
    a == b || (IsNumber(a) && IsNumber(b) && NumberValue(a) == NumberValue(b))
  }

  // --- By the parts of a literal ----------------------------------------------

  function FractionPart(f: string): string {
    if f == "" then "" else ['.'] + f
  }

  function ExponentPart(letter: char, sign: string, x: string): string {
    if x == "" then "" else [letter] + (sign + x)
  }

  ghost predicate DigitsOnly(s: string) {
    forall i :: 0 <= i < |s| ==> IsDigit(s[i])
  }

  lemma {:induction false} DigitsOfAdd(a: string, b: string)
    ensures DigitsOf(a + b) == DigitsOf(a) + DigitsOf(b)
  {
    if b == "" {
      assert a + b == a;
    } else {
      assert (a + b)[..|a + b| - 1] == a + b[..|b| - 1];
      DigitsOfAdd(a, b[..|b| - 1]);
    }
  }

  lemma {:induction false} DigitsOfDigits(s: string)
    requires DigitsOnly(s)
    ensures DigitsOf(s) == s
  {
    if s != "" {
      DigitsOfDigits(s[..|s| - 1]);
      assert s == s[..|s| - 1] + [s[|s| - 1]];
    }
  }

  lemma DigitsOfOther(c: char)
    requires !IsDigit(c)
    ensures DigitsOf([c]) == ""
  {
    assert [c][..0] == "";
  }

  lemma FractionDigits(f: string)
    requires DigitsOnly(f)
    ensures DigitsOf(FractionPart(f)) == f && FractionText(FractionPart(f))
  {
    DigitsOfDigits(f);
    DigitsOfOther('.');
    DigitsOfAdd(['.'], f);
    if f != "" { assert FractionPart(f)[1..] == f; }
  }

  lemma ExponentDigits(letter: char, sign: string, x: string)
    requires letter in {'e', 'E'} && sign in {"", "+", "-"} && DigitsOnly(x)
    ensures DigitsOf(ExponentPart(letter, sign, x)) == x
  {
    hide DigitsOf;
    DigitsOfDigits(x);
    SignHasNoDigits(sign);
    DigitsOfAdd(sign, x);
    DigitsOfOther(letter);
    DigitsOfAdd([letter], sign + x);
    assert x == "" ==> DigitsOf("") == "" by { DigitsOfDigits(""); }
  }

  lemma ExponentShape(letter: char, sign: string, x: string)
    requires letter in {'e', 'E'} && sign in {"", "+", "-"} && DigitsOnly(x)
    ensures var e := ExponentPart(letter, sign, x);
      ExponentText(e) && (e == "" <==> x == "") && (x != "" ==> (Negative(e[1..]) <==> sign == "-"))
  {
    if x != "" {
      var e := ExponentPart(letter, sign, x);
      assert e[1..] == sign + x;
      if sign == "" {
        assert sign + x == x;
      } else {
        assert e[2..] == x;
      }
    }
  }

  lemma SignHasNoDigits(sign: string)
    requires sign in {"", "+", "-"}
    ensures DigitsOf(sign) == ""
  {
    if sign != "" {
      DigitsOfOther(sign[0]);
      assert sign == [sign[0]];
    }
  }

  function Signed(sign: string, n: nat): int {
    if sign == "-" then 0 - n else n
  }

  /** A literal denotes its digits, scaled by its exponent less the number of digits behind the point. */
  lemma {:induction false} LiteralDenotes(
      sign: string, w: string, f: string, letter: char, esign: string, x: string)
    requires sign in {"", "-"} && WholeText(w) && letter in {'e', 'E'} && esign in {"", "+", "-"}
    requires DigitsOnly(f) && DigitsOnly(x) && DigitsOnly(w + f)
    ensures var s := sign + (w + (FractionPart(f) + ExponentPart(letter, esign, x)));
      var size := Scaled(NatOf(w + f), Signed(esign, NatOf(x)) - |f|);
      IsNumber(s) && NumberValue(s) == if sign == "-" then -size else size
  {
    hide *;
    var frac, exp := FractionPart(f), ExponentPart(letter, esign, x);
    FractionDigits(f);
    ExponentDigits(letter, esign, x);
    ExponentShape(letter, esign, x);
    PartsAreNumber(sign, w, frac, exp);
    LeadingDigits(sign, w, f);
    ValueOfParts(sign, w, frac, exp, esign, w + f, f, x);
  }

  lemma LeadingDigits(sign: string, w: string, f: string)
    requires sign in {"", "-"} && DigitsOnly(w + f) && DigitsOnly(f)
    ensures DigitsOf(sign + w + FractionPart(f)) == w + f
  {
    hide DigitsOf;
    SignHasNoDigits(sign);
    DigitsOfAdd(sign, w);
    WholeDigits(w, f);
    FractionDigits(f);
    DigitsOfAdd(sign + w, FractionPart(f));
    assert "" + w == w;
  }

  lemma {:induction false} ValueOfParts(
      sign: string, w: string, frac: string, exp: string, esign: string, digits: string, f: string, x: string)
    requires sign in {"", "-"} && WholeText(w) && FractionText(frac) && ExponentText(exp)
    requires IsNumber(sign + (w + (frac + exp)))
    requires DigitsOf(sign + w + frac) == digits && DigitsOf(frac) == f && DigitsOf(exp) == x
    requires (exp == "" <==> x == "") && (x != "" ==> (Negative(exp[1..]) <==> esign == "-"))
    ensures var size := Scaled(NatOf(digits), Signed(esign, NatOf(x)) - |f|);
      NumberValue(sign + (w + (frac + exp))) == if sign == "-" then -size else size
  {
    hide DigitsOf, WholeText, FractionText, ExponentText, IntLength, FracLength, NumberLength, Scaled, Negative;
    PartsLengths(w, frac, exp);
    NumberParts(sign, w, frac, exp);
  }

  lemma WholeDigits(w: string, f: string)
    requires DigitsOnly(w + f)
    ensures DigitsOf(w) == w
  {
    assert forall i :: 0 <= i < |w| ==> (w + f)[i] == w[i];
    DigitsOfDigits(w);
  }

  lemma PartsAreNumber(sign: string, w: string, frac: string, exp: string)
    requires sign in {"", "-"} && WholeText(w) && FractionText(frac) && ExponentText(exp)
    ensures IsNumber(sign + (w + (frac + exp)))
  {
    hide WholeText, FractionText, ExponentText, NumberLength;
    PartsThen(sign, w, frac, exp, "");
    assert exp + "" == exp;
  }

  lemma PartsLengths(w: string, frac: string, exp: string)
    requires WholeText(w) && FractionText(frac) && ExponentText(exp)
    ensures IntLength(w + (frac + exp)) == Some(|w|) && FracLength(frac + exp) == Some(|frac|)
    ensures w != "" && w[0] != '-'
  {
    hide WholeText, FractionText, ExponentText, IntLength, FracLength;
    PartsBegin(w, frac, exp);
    AfterFraction(exp, "");
    assert exp + "" == exp;
    AfterWhole(frac, exp, "");
    WholeThen(w, frac + exp);
    FractionThen(frac, exp);
  }

  /** Where the parts lie in the literal. */
  lemma NumberParts(sign: string, w: string, frac: string, exp: string)
    requires sign in {"", "-"} && w != "" && w[0] != '-'
    ensures var s, p := sign + (w + (frac + exp)), |sign| + |w|;
      && (s[0] == '-' <==> sign == "-")
      && s[|sign|..] == w + (frac + exp) && s[p..] == frac + exp && s[p + |frac|..] == exp
      && s[..p + |frac|] == sign + w + frac && s[p..p + |frac|] == frac
      && (exp != "" ==> s[p + |frac| + 1..] == exp[1..])
  {
    var s, head := sign + (w + (frac + exp)), sign + w;
    assert s == head + (frac + exp) && s == head + frac + exp;
    assert s[0] == if sign == "" then w[0] else sign[0];
    HalvesOf(sign, w + (frac + exp));
    HalvesOf(head, frac + exp);
    HalvesOf(head + frac, exp);
    assert (head + frac)[|head|..] == frac;
  }

  lemma HalvesOf(a: string, b: string)
    ensures (a + b)[..|a|] == a && (a + b)[|a|..] == b && (b != "" ==> (a + b)[|a| + 1..] == b[1..])
  {}

  // --- Values as written ------------------------------------------------------

  /** The reading that keeps every number as the literal that spells it. */
  const LITERALLY: string -> Option<string> := s => Some(s)

  /** Equal values, numbers compared by what they denote. */
  predicate SameValue(a: Json, b: Json) {
    match a
    case Num(text) => b.Num? && SameNumber(text, b.text)
    case Arr(items) =>
      b.Arr? && |items| == |b.items| && forall i :: 0 <= i < |items| ==> SameValue(items[i], b.items[i])
    case Obj(members) =>
      && b.Obj? && |members| == |b.members|
      && forall i :: 0 <= i < |members| ==>
           members[i].key == b.members[i].key && SameValue(members[i].value, b.members[i].value)
    case _ => a == b
  }

  predicate SameEntry(a: Entry, b: Entry) {
    a.Keys == b.Keys && forall c :: c in a ==> SameValue(a[c], b[c])
  }

  /** Every number of the value prints as a literal of the same number once it has been a double. */
  predicate Survives(canon: string -> Option<string>, v: Json) {
    match v
    case Num(text) => canon(text).Some? && SameNumber(text, canon(text).value)
    case Overflow => false
    case Arr(items) => forall i :: 0 <= i < |items| ==> Survives(canon, items[i])
    case Obj(members) => forall i :: 0 <= i < |members| ==> Survives(canon, members[i].value)
    case _ => true
  }

  predicate EntrySurvives(canon: string -> Option<string>, entry: Entry) {
    forall c :: c in entry ==> Survives(canon, entry[c])
  }

  /** A value as written, read into doubles. */
  function Reread(canon: string -> Option<string>, v: Json): Json {
    match v
    case Num(text) => if canon(text).Some? then Num(canon(text).value) else Overflow
    case Arr(items) => Arr(RereadItems(canon, items))
    case Obj(members) => Obj(RereadMembers(canon, members))
    case _ => v
  }

  function RereadItems(canon: string -> Option<string>, items: seq<Json>): (r: seq<Json>)
    ensures |r| == |items| && forall i :: 0 <= i < |r| ==> r[i] == Reread(canon, items[i])
  {
    seq(|items|, i requires 0 <= i < |items| => Reread(canon, items[i]))
  }

  function RereadMembers(canon: string -> Option<string>, members: seq<Member>): (r: seq<Member>)
    ensures |r| == |members|
    ensures forall i :: 0 <= i < |r| ==> r[i] == Member(members[i].key, Reread(canon, members[i].value))
  {
    seq(|members|, i requires 0 <= i < |members| => Member(members[i].key, Reread(canon, members[i].value)))
  }

  function RereadMap(canon: string -> Option<string>, m: map<string, Json>): map<string, Json> {
    map k | k in m :: Reread(canon, m[k])
  }

  function RereadSection(canon: string -> Option<string>, section: Section): Section {
    map r | r in section :: RereadMap(canon, section[r])
  }

  function RereadSections(canon: string -> Option<string>, sections: map<string, Section>): map<string, Section> {
    map t | t in sections :: RereadSection(canon, sections[t])
  }

  // --- Reading is reading literally, then rounding ----------------------------

  lemma {:induction false} RereadSnoc(canon: string -> Option<string>, members: seq<Member>, m: Member)
    ensures RereadMembers(canon, members + [m]) ==
      RereadMembers(canon, members) + [Member(m.key, Reread(canon, m.value))]
    ensures KeySet(RereadMembers(canon, members)) == KeySet(members)
  {
    hide Reread;
    var read := RereadMembers(canon, members);
    forall k ensures k in KeySet(read) <==> k in KeySet(members) {
      if k in KeySet(members) {
        var i :| 0 <= i < |members| && members[i].key == k;
        assert read[i] in read;
      }
      if k in KeySet(read) {
        var i :| 0 <= i < |read| && read[i].key == k;
        assert members[i] in members;
      }
    }
  }

  lemma {:induction false} PutOfReread(canon: string -> Option<string>, members: seq<Member>, m: Member)
    ensures Put(RereadMembers(canon, members), Member(m.key, Reread(canon, m.value))) ==
      RereadMembers(canon, Put(members, m))
  {
    hide Reread, RereadMembers, JsonText.Before, KeySet;
    if members == [] {
      RereadSnoc(canon, [], m);
      assert [] + [m] == [m] && RereadMembers(canon, []) == [];
    } else {
      var front, last := members[..|members| - 1], members[|members| - 1];
      assert members == front + [last];
      PutOfReread(canon, front, m);
      RereadSnoc(canon, front, last);
      RereadSnoc(canon, front, m);
      RereadSnoc(canon, members, m);
      RereadSnoc(canon, Put(front, m), last);
      PutCases(front, last, m);
      PutCases(RereadMembers(canon, front), Member(last.key, Reread(canon, last.value)),
        Member(m.key, Reread(canon, m.value)));
    }
  }

  ghost predicate ReadsAs(canon: string -> Option<string>, exact: Parsed<Json>, r: Parsed<Json>) {
    if exact.Bad? then r.Bad? else r == Ok(Reread(canon, exact.value), exact.rest)
  }

  lemma {:induction false} ValueReads(canon: string -> Option<string>, s: string)
    ensures ReadsAs(canon, Value(LITERALLY, s), Value(canon, s))
    decreases |s|, 0
  {
    hide Chars, NumberLength, Items, Members;
    if s != [] && s[0] == '[' {
      var t := SkipWs(s[1..]);
      if !(t != [] && t[0] == ']') {
        ItemsRead(canon, t, []);
      }
    } else if s != [] && s[0] == '{' {
      var t := SkipWs(s[1..]);
      if !(t != [] && t[0] == '}') {
        MembersRead(canon, t, []);
      }
    }
  }

  lemma {:induction false} ItemsRead(canon: string -> Option<string>, s: string, done: seq<Json>)
    ensures ReadsAs(canon, Items(LITERALLY, s, done), Items(canon, s, RereadItems(canon, done)))
    decreases |s|, 1
  {
    hide Value, Reread;
    ValueReads(canon, s);
    var item := Value(LITERALLY, s);
    if item.Ok? {
      assert RereadItems(canon, done + [item.value]) == RereadItems(canon, done) + [Reread(canon, item.value)];
      RereadArray(canon, done + [item.value]);
      var t := SkipWs(item.rest);
      if t != [] && t[0] == ',' {
        ItemsRead(canon, SkipWs(t[1..]), done + [item.value]);
      }
    }
  }

  lemma RereadArray(canon: string -> Option<string>, items: seq<Json>)
    ensures Reread(canon, Arr(items)) == Arr(RereadItems(canon, items))
  {}

  lemma RereadObject(canon: string -> Option<string>, members: seq<Member>)
    ensures Reread(canon, Obj(members)) == Obj(RereadMembers(canon, members))
  {}

  lemma {:induction false} MembersRead(canon: string -> Option<string>, s: string, done: seq<Member>)
    ensures ReadsAs(canon, Members(LITERALLY, s, done), Members(canon, s, RereadMembers(canon, done)))
    decreases |s|, 1
  {
    hide Value, Reread, Put, Chars;
    if s != [] && s[0] == '"' && Chars(s[1..]).Ok? {
      var key := Chars(s[1..]);
      var t := SkipWs(key.rest);
      if t != [] && t[0] == ':' {
        ValueReads(canon, SkipWs(t[1..]));
        var item := Value(LITERALLY, SkipWs(t[1..]));
        if item.Ok? {
          var done1 := Put(done, Member(key.value, item.value));
          PutOfReread(canon, done, Member(key.value, item.value));
          RereadObject(canon, done1);
          var u := SkipWs(item.rest);
          if u != [] && u[0] == ',' {
            MembersRead(canon, SkipWs(u[1..]), done1);
          }
        }
      }
    }
  }

  lemma {:induction false} LookupOfReread(canon: string -> Option<string>, members: seq<Member>, key: string)
    ensures key in KeySet(RereadMembers(canon, members)) <==> key in KeySet(members)
    ensures key in KeySet(members) ==>
      Lookup(RereadMembers(canon, members), key).value == Reread(canon, Lookup(members, key).value)
  {
    hide Reread;
    if members != [] {
      var front, read := members[..|members| - 1], RereadMembers(canon, members);
      assert read[..|read| - 1] == RereadMembers(canon, front);
      LookupOfReread(canon, front, key);
    }
  }

  lemma {:induction false} ToMapOfReread(canon: string -> Option<string>, members: seq<Member>)
    ensures ToMap(RereadMembers(canon, members)) == RereadMap(canon, ToMap(members))
  {
    hide Reread, Lookup, RereadMembers, KeySet;
    forall k
      ensures k in KeySet(RereadMembers(canon, members)) <==> k in KeySet(members)
      ensures k in KeySet(members) ==>
        Lookup(RereadMembers(canon, members), k).value == Reread(canon, Lookup(members, k).value)
    {
      LookupOfReread(canon, members, k);
    }
  }

  lemma RereadNothing(canon: string -> Option<string>)
    ensures RereadSection(canon, map[]) == map[] && RereadSections(canon, map[]) == map[]
  {}

  lemma RereadOneMore(canon: string -> Option<string>, section: Section, r: string, entry: Entry)
    ensures RereadSection(canon, section[r := entry]) == RereadSection(canon, section)[r := RereadMap(canon, entry)]
  {
    hide RereadMap;
  }

  lemma RereadOneSection(canon: string -> Option<string>, sections: map<string, Section>, t: string, section: Section)
    ensures RereadSections(canon, sections[t := section])
      == RereadSections(canon, sections)[t := RereadSection(canon, section)]
  {
    hide RereadSection;
  }

  lemma {:induction false} EntriesReread(canon: string -> Option<string>, table: string, members: seq<Member>)
    ensures var exact := ReadEntries(table, members);
      ReadEntries(table, RereadMembers(canon, members)) ==
        if exact.Refused? then exact else Accepted(RereadSection(canon, exact.value))
  {
    hide SafeComponent, ToMap, RereadSection, RereadMap;
    if members == [] {
      assert RereadSection(canon, map[]) == map[] by { RereadNothing(canon); }
    } else {
      var front, read := members[..|members| - 1], RereadMembers(canon, members);
      var m := members[|members| - 1];
      assert read[..|read| - 1] == RereadMembers(canon, front);
      EntriesReread(canon, table, front);
      if m.value.Obj? {
        ToMapOfReread(canon, m.value.members);
        RereadObject(canon, m.value.members);
        if ReadEntries(table, front).Accepted? {
          RereadOneMore(canon, ReadEntries(table, front).value, m.key, ToMap(m.value.members));
        }
      }
    }
  }

  lemma {:induction false} SectionsReread(canon: string -> Option<string>, obj: map<string, Json>, n: nat)
    requires n <= |COMPOSITE_TABLES|
    ensures var exact := ReadSections(obj, n);
      ReadSections(RereadMap(canon, obj), n) ==
        if exact.Refused? then exact else Accepted(RereadSections(canon, exact.value))
  {
    hide RereadSection, RereadSections, ReadEntries;
    if n == 0 {
      RereadNothing(canon);
    } else {
      SectionsReread(canon, obj, n - 1);
      var table := COMPOSITE_TABLES[n - 1];
      if table in obj && obj[table].Obj? {
        var section := ReadEntries(table, obj[table].members);
        EntriesReread(canon, table, obj[table].members);
        RereadObject(canon, obj[table].members);
        if ReadSections(obj, n - 1).Accepted? && section.Accepted? {
          RereadOneSection(canon, ReadSections(obj, n - 1).value, table, section.value);
        }
      }
    }
  }

  /** A document read into doubles is the document as written with its numbers rounded. */
  lemma {:induction false} DocumentReread(canon: string -> Option<string>, text: string, g: string)
    ensures var exact := ParseDocument(LITERALLY, text, g);
      ParseDocument(canon, text, g) ==
        if exact.Refused? then exact else Accepted(Document(g, RereadSections(canon, exact.value.sections)))
  {
    hide Value, ReadSections, RereadSections, ToMap, RereadMembers;
    var s := StripBOM(text);
    ValueReads(canon, SkipWs(s));
    var exact := Parse(LITERALLY, s);
    if exact.Some? && exact.value.Obj? {
      RereadObject(canon, exact.value.members);
      ToMapOfReread(canon, exact.value.members);
      SectionsReread(canon, ToMap(exact.value.members), |COMPOSITE_TABLES|);
    }
  }

  // --- What an entry's text keeps ---------------------------------------------

  lemma {:induction false} SettleItemsAt(items: seq<Json>)
    ensures forall i :: 0 <= i < |items| ==> SettleItems(items)[i] == Settle(items[i])
  {
    if items != [] {
      SettleItemsAt(items[1..]);
    }
  }

  /** Read into doubles and written back, a value says the same exactly when each of its numbers does. */
  lemma {:induction false} SameExactlyWhenSurvives(canon: string -> Option<string>, v: Json)
    ensures SameValue(v, Settle(Reread(canon, v))) <==> Survives(canon, v)
  {
    match v
    case Arr(items) =>
      forall i | 0 <= i < |items|
        ensures SameValue(items[i], Settle(Reread(canon, items[i]))) <==> Survives(canon, items[i])
      {
        SameExactlyWhenSurvives(canon, items[i]);
      }
      hide Settle, Reread, SettleItems;
      RereadArray(canon, items);
      SettleItemsAt(RereadItems(canon, items));
    case Obj(members) =>
      forall i | 0 <= i < |members|
        ensures SameValue(members[i].value, Settle(Reread(canon, members[i].value))) <==>
          Survives(canon, members[i].value)
      {
        SameExactlyWhenSurvives(canon, members[i].value);
      }
      RereadObject(canon, members);
      SettleMembersAt(RereadMembers(canon, members));
    case _ =>
  }

  lemma {:induction false} SameValueItself(v: Json)
    ensures SameValue(v, v)
  {
    match v
    case Arr(items) =>
      forall i | 0 <= i < |items| ensures SameValue(items[i], items[i]) {
        SameValueItself(items[i]);
      }
    case Obj(members) =>
      forall i | 0 <= i < |members| ensures SameValue(members[i].value, members[i].value) {
        SameValueItself(members[i].value);
      }
    case _ =>
  }

  lemma {:induction false} NormalLiterally(canon: string -> Option<string>, v: Json)
    requires Normal(canon, v)
    ensures Normal(LITERALLY, v)
  {
    match v
    case Arr(items) =>
      forall i | 0 <= i < |items| ensures Normal(LITERALLY, items[i]) {
        NormalLiterally(canon, items[i]);
      }
    case Obj(members) =>
      forall i | 0 <= i < |members| ensures Normal(LITERALLY, members[i].value) {
        NormalLiterally(canon, members[i].value);
      }
    case _ =>
  }

  lemma {:induction false} ValidLiterally(canon: string -> Option<string>, doc: Document)
    requires ValidDocument(canon, doc)
    ensures ValidDocument(LITERALLY, doc)
  {
    hide Normal;
    forall t, r, c | t in doc.sections && r in doc.sections[t] && c in doc.sections[t][r]
      ensures Normal(LITERALLY, doc.sections[t][r][c])
    {
      NormalLiterally(canon, doc.sections[t][r][c]);
    }
  }

  // --- The merge, on what is written ------------------------------------------

  /** The entry as the document's text has it, number by number. */
  function Written(docs: Documents, g: string, k: Key): Option<Entry> {
    if Held(LITERALLY, docs, g, k) then Some(EntryIn(ParseDocument(LITERALLY, docs[g], g).value, k)) else None
  }

  lemma {:induction false} HeldAsWritten(canon: string -> Option<string>, docs: Documents, g: string, k: Key)
    ensures Held(canon, docs, g, k) <==> Written(docs, g, k).Some?
    ensures Held(canon, docs, g, k) ==>
      EntryIn(Current(canon, docs, g), k) == RereadMap(canon, Written(docs, g, k).value)
  {
    hide ParseDocument, RereadMap;
    if g in docs {
      DocumentReread(canon, docs[g], g);
    }
  }

  /** What a rewritten document's text says of an entry that the merge does not replace. */
  lemma {:induction false} WrittenAfter(
      canon: string -> Option<string>, docs: Documents, batch: Batch, force: bool, reached: set<string>, g: string,
      k: Key)
    requires Doubles(canon) && Loads(canon, docs) && Placeable(canon, docs, batch)
    requires g in reached && Rewrites(canon, docs, batch, force, g)
    requires Held(canon, docs, g, k) && (k !in batch || !force)
    ensures Written(Merged(canon, docs, batch, force, reached), g, k) ==
      Some(SettleMap(EntryIn(Current(canon, docs, g), k)))
  {
    hide ParseDocument, Serialize, AsWritten, Applied, GroupOf, Loads, EntryText, Merged, SettleMap, Rewrites,
      ValidDocument, Current, NormalMap, SafeComponent, HasEntry;
    var updates := UpdatesFor(canon, docs, batch, g);
    var doc := Applied(Current(canon, docs, g), updates, force);
    AfterMerge(canon, docs, batch, force, reached, g);
    CurrentIsValid(canon, docs, g);
    AppliedIsValid(canon, Current(canon, docs, g), updates, force);
    ValidLiterally(canon, doc);
    ParseOfSerialize(LITERALLY, doc);
    NewDocumentIsEmpty(canon, docs, g, k);
    AppliedHas(Current(canon, docs, g), updates, force, k);
    WrittenEntries(doc, k);
  }

  /**
    An entry the batch does not name, or may not replace, stays with the same columns.
    What its text says is the same exactly when its document is not rewritten, or
    each of its numbers prints as the same number once it has been a double.
   */
  lemma {:induction false} OtherEntriesStand(
      canon: string -> Option<string>, docs: Documents, batch: Batch, force: bool, reached: set<string>, g: string,
      k: Key)
    requires Doubles(canon) && Loads(canon, docs) && Placeable(canon, docs, batch)
    requires Held(canon, docs, g, k) && (k !in batch || !force || g !in reached)
    ensures var was, now := Written(docs, g, k), Written(Merged(canon, docs, batch, force, reached), g, k);
      && was.Some? && now.Some? && now.value.Keys == was.value.Keys
      && (SameEntry(was.value, now.value) <==>
            !(g in reached && Rewrites(canon, docs, batch, force, g)) || EntrySurvives(canon, was.value))
  {
    hide ParseDocument, Serialize, AsWritten, Applied, GroupOf, Placeable, Loads, EntryText, Merged, Rewrites, Held,
      HasEntry, Current, Reread, Settle, SameValue, Survives;
    HeldAsWritten(canon, docs, g, k);
    var was := Written(docs, g, k).value;
    if g in reached && Rewrites(canon, docs, batch, force, g) {
      WrittenAfter(canon, docs, batch, force, reached, g, k);
      forall c | c in was ensures SameValue(was[c], Settle(Reread(canon, was[c]))) <==> Survives(canon, was[c]) {
        SameExactlyWhenSurvives(canon, was[c]);
      }
    } else {
      SameBytes(canon, docs, batch, force, reached, g, k);
      forall c | c in was ensures SameValue(was[c], was[c]) {
        SameValueItself(was[c]);
      }
    }
  }

  lemma {:induction false} SameBytes(
      canon: string -> Option<string>, docs: Documents, batch: Batch, force: bool, reached: set<string>, g: string,
      k: Key)
    requires Doubles(canon) && Loads(canon, docs) && Placeable(canon, docs, batch)
    requires Held(canon, docs, g, k) && !(g in reached && Rewrites(canon, docs, batch, force, g))
    ensures Written(Merged(canon, docs, batch, force, reached), g, k) == Written(docs, g, k)
  {
    hide ParseDocument, Serialize, AsWritten, Applied, GroupOf, Placeable, Loads, EntryText, Merged, Rewrites, HasEntry;
    AfterMerge(canon, docs, batch, force, reached, g);
  }
  // --- A merge that loses a number --------------------------------------------

  const HELD := Key("sys_dictionary", "t.a")
  const ADDED := Key("sys_dictionary", "t.b")

  /** One document with one record, which has one column. */
  function OneNumber(literal: string): Document {
    Document("t", map["sys_dictionary" := map["t.a" := map["n" := Num(literal)]]])
  }

  /**
    Any number that does not survive being a double is lost by some merge that never
    names its record: the document holds it, and the batch adds another record.
   */
  lemma {:induction false} ANumberIsLost(canon: string -> Option<string>, literal: string, force: bool)
    requires Doubles(canon) && IsNumber(literal) && !Survives(canon, Num(literal))
    ensures var docs: Documents := map["t" := Serialize(OneNumber(literal))];
      var batch: Batch := map[ADDED := map[]];
      && Loads(canon, docs) && Placeable(canon, docs, batch) && HELD !in batch
      && Written(docs, "t", HELD) == Some(map["n" := Num(literal)])
      && var now := Written(Merged(canon, docs, batch, force, {"t"}), "t", HELD);
         now.Some? && !SameEntry(map["n" := Num(literal)], now.value)
  {
    hide ParseDocument, Serialize, Merged, Loads, Placeable, Rewrites, Held, Survives, SameValue, IsNumber;
    var docs: Documents := map["t" := Serialize(OneNumber(literal))];
    var was: Entry := map["n" := Num(literal)];
    assert "n" in was && !EntrySurvives(canon, was);
    AddingRewrites(canon, literal, docs, force);
    assert HELD != ADDED;
    OtherEntriesStand(canon, docs, map[ADDED := map[]], force, {"t"}, "t", HELD);
  }

  lemma {:induction false} AddingRewrites(
      canon: string -> Option<string>, literal: string, docs: Documents, force: bool)
    requires IsNumber(literal) && docs == map["t" := Serialize(OneNumber(literal))]
    ensures var batch: Batch := map[ADDED := map[]];
      Loads(canon, docs) && Placeable(canon, docs, batch) && Rewrites(canon, docs, batch, force, "t")
    ensures Held(canon, docs, "t", HELD) && Written(docs, "t", HELD) == Some(map["n" := Num(literal)])
  {
    hide ParseDocument, Serialize, SafeComponent, NormalMap, GroupOf, EntryText, IsNumber;
    StoredNumber(canon, literal);
    AddedIsPlaceable(canon, docs);
    var batch: Batch := map[ADDED := map[]];
    var updates := UpdatesFor(canon, docs, batch, "t");
    assert ADDED in updates;
    assert Replaces(Current(canon, docs, "t"), ADDED, updates[ADDED], force);
  }

  lemma {:induction false} StoredNumber(canon: string -> Option<string>, literal: string)
    requires IsNumber(literal)
    ensures ParseDocument(LITERALLY, Serialize(OneNumber(literal)), "t") == Accepted(OneNumber(literal))
    ensures var read := ParseDocument(canon, Serialize(OneNumber(literal)), "t");
      read.Accepted? && forall k :: HasEntry(read.value, k) <==> k == HELD
  {
    hide ParseDocument, Serialize, SafeComponent, IsNumber;
    var doc := OneNumber(literal);
    SafeNames();
    assert ValidDocument(LITERALLY, doc);
    ParseOfSerialize(LITERALLY, doc);
    var entry: Entry := map["n" := Num(literal)];
    assert SettleMap(entry) == entry;
    var section: Section := map["t.a" := entry];
    assert SettleSection(section) == section;
    assert AsWritten(doc) == doc;
    DocumentReread(canon, Serialize(doc), "t");
  }

  lemma SafeNames()
    ensures SafeComponent("t.a") && SafeComponent("t.b") && IsTableName("t")
    ensures PathNames.Before("t.b", '.') == "t"
  {
    assert ByteLength("t.a") == 1 + ByteLength(".a") && ByteLength("t.b") == 1 + ByteLength(".b");
  }

  lemma {:induction false} AddedIsPlaceable(canon: string -> Option<string>, docs: Documents)
    requires forall g :: !Held(canon, docs, g, ADDED)
    ensures GroupOf(canon, docs, ADDED, map[]) == Some("t")
    ensures Placeable(canon, docs, map[ADDED := map[]])
  {
    hide ParseDocument, SafeComponent, IsTableName, PathNames.Before, Held;
    SafeNames();
    assert COMPOSITE_TABLES[1] == ADDED.table;
  }

  /** The first odd number past the precision of a double, which reads as its even neighbour. */
  const LARGE_ODD := "9007199254740993"

  lemma {:induction false} LargeOddIsRounded(canon: string -> Option<string>)
    requires canon(LARGE_ODD) == Some("9007199254740992")
    ensures IsNumber(LARGE_ODD) && !Survives(canon, Num(LARGE_ODD))
  {
    hide IsNumber, NumberValue;
    var front := "900719925474099";
    assert LARGE_ODD == front + ['3'] && "9007199254740992" == front + ['2'];
    LastDigitTells(front, '3', '2');
  }

  lemma {:induction false} LastDigitTells(front: string, a: char, b: char)
    requires front != [] && front[0] != '0' && forall i :: 0 <= i < |front| ==> IsDigit(front[i])
    requires IsDigit(a) && IsDigit(b) && a != b
    ensures IsNumber(front + [a]) && !SameNumber(front + [a], front + [b])
  {
    hide IsNumber, NumberValue;
    WholeNumber(front + [a]);
    WholeNumber(front + [b]);
    assert (front + [a])[..|front|] == front && (front + [b])[..|front|] == front;
  }

  /** Digits not led by zero spell their own value. */
  lemma {:induction false} WholeNumber(s: string)
    requires s != [] && s[0] != '0' && forall i :: 0 <= i < |s| ==> IsDigit(s[i])
    ensures IsNumber(s) && NumberValue(s) == NatOf(s) as real
  {
    hide NumberValue, IsNumber, DigitsOf;
    LiteralDenotes("", s, "", 'e', "", "");
    assert "" + (s + ("" + "")) == s && s + "" == s;
    assert Pow10(0) == 1.0 && NatOf("") == 0;
  }
}
