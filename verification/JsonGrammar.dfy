/**
  The grammar of section 2 of RFC 8259, said of texts by their parts, and the parser
  measured against it: it accepts exactly the texts of the grammar, and gives the value
  they spell.
 */
module JsonGrammar {
  import opened Collections
  import opened JsonText
  import opened JsonRoundTrip

  // --- Numbers ----------------------------------------------------------------

  ghost predicate Ws(s: string) {
    forall i :: 0 <= i < |s| ==> s[i] == ' ' || s[i] == '\t' || s[i] == '\n' || s[i] == '\r'
  }

  ghost predicate AllDigits(s: string) {
    s != "" && forall i :: 0 <= i < |s| ==> '0' <= s[i] <= '9'
  }

  /** Zero, or digits that zero does not lead. */
  ghost predicate WholeText(s: string) {
    s == "0" || (AllDigits(s) && s[0] != '0')
  }

  /** Nothing, or a point and digits. */
  ghost predicate FractionText(s: string) {
    s == "" || (s[0] == '.' && AllDigits(s[1..]))
  }

  /** Nothing, or the letter, a sign or none, and digits. */
  ghost predicate ExponentText(s: string) {
    s == "" || ((s[0] == 'e' || s[0] == 'E')
      && (AllDigits(s[1..]) || (|s| > 1 && (s[1] == '+' || s[1] == '-') && AllDigits(s[2..]))))
  }

  ghost predicate NumberText(s: string) {
    exists p, q, r :: 0 <= p <= q <= r <= |s|
      && (s[..p] == "" || s[..p] == "-")
      && WholeText(s[p..q]) && FractionText(s[q..r]) && ExponentText(s[r..])
  }

  lemma {:induction false} RunOfDigits(s: string)
    ensures AllDigits(s) <==> s != "" && DigitRun(s) == |s|
  {
    if s != "" && AllDigits(s) {
      if |s| > 1 { RunOfDigits(s[1..]); }
    }
    assert DigitRun(s) == |s| ==> forall i :: 0 <= i < |s| ==> '0' <= s[i] <= '9';
  }

  lemma {:induction false} DigitsThen(d: string, rest: string)
    requires AllDigits(d) && (rest == "" || !('0' <= rest[0] <= '9'))
    ensures DigitRun(d + rest) == |d|
  {
    assert (d + rest)[1..] == d[1..] + rest;
    if |d| > 1 {
      DigitsThen(d[1..], rest);
    } else {
      assert d[1..] + rest == rest;
    }
  }

  lemma {:induction false} WholeThen(w: string, rest: string)
    requires WholeText(w) && (rest == "" || !('0' <= rest[0] <= '9'))
    ensures IntLength(w + rest) == Some(|w|)
  {
    if w != "0" { DigitsThen(w, rest); }
  }

  lemma {:induction false} FractionThen(f: string, rest: string)
    requires FractionText(f) && (rest == "" || (!('0' <= rest[0] <= '9') && rest[0] != '.'))
    ensures FracLength(f + rest) == Some(|f|)
  {
    if f == "" {
      assert f + rest == rest;
    } else {
      assert (f + rest)[1..] == f[1..] + rest;
      DigitsThen(f[1..], rest);
    }
  }

  lemma {:induction false} ExponentThen(e: string, rest: string)
    requires ExponentText(e) && Stops(rest)
    ensures ExpLength(e + rest) == Some(|e|)
  {
    if e == "" {
      assert e + rest == rest;
    } else {
      var t := e[1..] + rest;
      assert (e + rest)[1..] == t;
      if AllDigits(e[1..]) {
        assert t[0] == e[1];
        assert t[SignLength(t)..] == t;
        DigitsThen(e[1..], rest);
      } else {
        assert e[1..] == [e[1]] + e[2..];
        assert t == [e[1]] + (e[2..] + rest) && t[1..] == e[2..] + rest;
        DigitsThen(e[2..], rest);
      }
    }
  }

  /** A number's text is taken whole, whatever follows that cannot belong to it. */
  lemma {:induction false} NumberThen(s: string, rest: string)
    requires NumberText(s) && Stops(rest)
    ensures NumberLength(s + rest) == Some(|s|)
  {
    hide NumberLength, WholeText, FractionText, ExponentText, Stops;
    var p, q, r :| 0 <= p <= q <= r <= |s|
      && (s[..p] == "" || s[..p] == "-")
      && WholeText(s[p..q]) && FractionText(s[q..r]) && ExponentText(s[r..]);
    assert s + rest == s[..p] + (s[p..q] + (s[q..r] + (s[r..] + rest)));
    PartsThen(s[..p], s[p..q], s[q..r], s[r..], rest);
  }

  lemma {:induction false} PartsThen(sign: string, w: string, f: string, e: string, rest: string)
    requires sign == "" || sign == "-"
    requires WholeText(w) && FractionText(f) && ExponentText(e) && Stops(rest)
    ensures NumberLength(sign + (w + (f + (e + rest)))) == Some(|sign| + |w| + |f| + |e|)
  {
    hide NumberLength, IntLength, FracLength, ExpLength, WholeText, FractionText, ExponentText, Stops;
    PartsBegin(w, f, e);
    AfterFraction(e, rest);
    AfterWhole(f, e, rest);
    WholeThen(w, f + (e + rest));
    FractionThen(f, e + rest);
    ExponentThen(e, rest);
    LengthOfParts(sign, w, f, e + rest);
  }

  lemma AfterFraction(e: string, rest: string)
    requires Stops(rest) && (e != "" ==> e[0] == 'e' || e[0] == 'E')
    ensures e + rest == "" || (!('0' <= (e + rest)[0] <= '9') && (e + rest)[0] != '.')
  {
    assert e == "" ==> e + rest == rest;
  }

  lemma AfterWhole(f: string, e: string, rest: string)
    requires f != "" ==> f[0] == '.'
    requires e + rest == "" || !('0' <= (e + rest)[0] <= '9')
    ensures f + (e + rest) == "" || !('0' <= (f + (e + rest))[0] <= '9')
  {
    assert f == "" ==> f + (e + rest) == e + rest;
  }

  lemma {:induction false} LengthOfParts(sign: string, w: string, f: string, c: string)
    requires (sign == "" && w != "" && w[0] != '-') || sign == "-"
    requires IntLength(w + (f + c)) == Some(|w|) && FracLength(f + c) == Some(|f|) && ExpLength(c).Some?
    ensures NumberLength(sign + (w + (f + c))) == Some(|sign| + |w| + |f| + ExpLength(c).value)
  {
    hide IntLength, FracLength, ExpLength;
    var all := sign + (w + (f + c));
    assert all[|sign|..] == w + (f + c);
    assert all[|sign| + |w|..] == f + c;
    assert all[|sign| + |w| + |f|..] == c;
    assert sign == "" ==> all[0] == w[0];
  }

  lemma PartsBegin(w: string, f: string, e: string)
    requires WholeText(w) && FractionText(f) && ExponentText(e)
    ensures w != "" && '0' <= w[0] <= '9'
    ensures f != "" ==> f[0] == '.'
    ensures e != "" ==> e[0] == 'e' || e[0] == 'E'
  {}

  /** And what is taken for a number is one. */
  lemma {:induction false} TakenIsNumber(s: string)
    requires NumberLength(s).Some?
    ensures NumberText(s[..NumberLength(s).value])
  {
    hide IntLength, FracLength, ExpLength, WholeText, FractionText, ExponentText;
    var p := if s != "" && s[0] == '-' then 1 else 0;
    var q := p + IntLength(s[p..]).value;
    var r := q + FracLength(s[q..]).value;
    var n := r + ExpLength(s[r..]).value;
    WholeTaken(s[p..]);
    FractionTaken(s[q..]);
    ExponentTaken(s[r..]);
    SlicesOf(s, p, q, r, n);
  }

  lemma SlicesOf(s: string, p: nat, q: nat, r: nat, n: nat)
    requires p <= q <= r <= n <= |s| && p <= 1 && (p == 1 ==> s[0] == '-')
    requires WholeText(s[p..][..q - p]) && FractionText(s[q..][..r - q]) && ExponentText(s[r..][..n - r])
    ensures NumberText(s[..n])
  {
    hide WholeText, FractionText, ExponentText;
    var t := s[..n];
    assert t[p..q] == s[p..][..q - p] && t[q..r] == s[q..][..r - q] && t[r..] == s[r..][..n - r];
    assert t[..p] == "" || t[..p] == "-";
  }

  lemma {:induction false} WholeTaken(s: string)
    ensures IntLength(s).Some? ==> WholeText(s[..IntLength(s).value])
  {}

  lemma {:induction false} FractionTaken(s: string)
    ensures FracLength(s).Some? ==> FractionText(s[..FracLength(s).value])
  {
    if FracLength(s).Some? && FracLength(s).value > 0 {
      var n := DigitRun(s[1..]);
      assert s[..1 + n][1..] == s[1..][..n];
    }
  }

  lemma {:induction false} ExponentTaken(s: string)
    ensures ExpLength(s).Some? ==> ExponentText(s[..ExpLength(s).value])
  {
    if ExpLength(s).Some? && ExpLength(s).value > 0 {
      var t := s[1..];
      var sign := SignLength(t);
      var n := DigitRun(t[sign..]);
      var e := s[..1 + sign + n];
      assert e[1 + sign..] == t[sign..][..n];
    }
  }

  // --- Strings ----------------------------------------------------------------

  ghost function HexDigitOf(c: char): int {
    if '0' <= c <= '9' then c as int - '0' as int
    else if 'a' <= c <= 'f' then c as int - 'a' as int + 10
    else if 'A' <= c <= 'F' then c as int - 'A' as int + 10
    else -1
  }

  /** Backslash, u and the four hexadecimal digits of a code unit. */
  ghost predicate UnitText(s: string, code: int) {
    && |s| == 6 && s[0] == '\\' && s[1] == 'u'
    && HexDigitOf(s[2]) >= 0 && HexDigitOf(s[3]) >= 0 && HexDigitOf(s[4]) >= 0 && HexDigitOf(s[5]) >= 0
    && code == 0x1000 * HexDigitOf(s[2]) + 0x100 * HexDigitOf(s[3]) + 0x10 * HexDigitOf(s[4]) + HexDigitOf(s[5])
  }

  ghost predicate ShortEscape(e: char, c: char) {
    || (e == '"' && c == '"') || (e == '\\' && c == '\\') || (e == '/' && c == '/')
    || (e == 'b' && c as int == 8) || (e == 'f' && c as int == 12) || (e == 'n' && c as int == 10)
    || (e == 'r' && c as int == 13) || (e == 't' && c as int == 9)
  }

  /** One character of a string: itself, a short escape, a code unit, or two that make a pair. */
  ghost predicate CharText(s: string, c: char) {
    || (s == [c] && c as int >= 0x20 && c != '"' && c != '\\')
    || (|s| == 2 && s[0] == '\\' && ShortEscape(s[1], c))
    || (UnitText(s, c as int) && !(0xD800 <= c as int < 0xE000))
    || (|s| == 12 && exists high, low ::
          && UnitText(s[..6], high) && UnitText(s[6..], low)
          && 0xD800 <= high < 0xDC00 && 0xDC00 <= low < 0xE000
          && c as int == 0x1_0000 + 0x400 * (high - 0xD800) + (low - 0xDC00))
  }

  ghost predicate CharsText(s: string, t: string)
    decreases |t|
  {
    if t == "" then s == ""
    else exists n :: 0 < n <= |s| && CharText(s[..n], t[0]) && CharsText(s[n..], t[1..])
  }

  /** A string literal, quotes and all. */
  ghost predicate StringText(s: string, t: string) {
    |s| >= 2 && s[0] == '"' && s[|s| - 1] == '"' && CharsText(s[1..|s| - 1], t)
  }

  lemma {:induction false} UnitIsHex4(s: string, code: int, rest: string)
    requires UnitText(s, code)
    ensures Hex4(s[2..] + rest) == Some(code)
  {
    hide HexDigit, HexDigitOf;
    DigitIs(s[2]);
    DigitIs(s[3]);
    DigitIs(s[4]);
    DigitIs(s[5]);
    var h := s[2..] + rest;
    assert h[0] == s[2] && h[1] == s[3] && h[2] == s[4] && h[3] == s[5];
  }

  lemma {:induction false} CharThen(s: string, c: char, rest: string)
    requires CharText(s, c)
    ensures Chars(s + rest) == Prepend(c, Chars(rest))
  {
    var all := s + rest;
    if |s| == 1 {
      assert all[1..] == rest;
    } else if |s| == 2 {
      assert all[2..] == rest;
    } else if |s| == 6 {
      UnitThen(s, c, rest);
    } else {
      PairThen(s, c, rest);
    }
  }

  lemma {:induction false} UnitThen(s: string, c: char, rest: string)
    requires UnitText(s, c as int) && !(0xD800 <= c as int < 0xE000)
    ensures Chars(s + rest) == Prepend(c, Chars(rest))
  {
    hide Hex4, UnitText;
    var all := s + rest;
    assert |s| == 6 && s[0] == '\\' && s[1] == 'u' by { UnitShape(s, c as int); }
    assert all[2..] == s[2..] + rest && (s[2..] + rest)[4..] == rest;
    UnitIsHex4(s, c as int, rest);
  }

  lemma UnitShape(s: string, code: int)
    requires UnitText(s, code)
    ensures |s| == 6 && s[0] == '\\' && s[1] == 'u' && s == "\\u" + s[2..] && 0 <= code < 0x1_0000
  {}

  lemma {:induction false} PairThen(s: string, c: char, rest: string)
    requires CharText(s, c) && |s| == 12
    ensures Chars(s + rest) == Prepend(c, Chars(rest))
  {
    hide Hex4, UnitText, CharText;
    var high, low := PairOf(s, c);
    UnitShape(s[..6], high);
    UnitShape(s[6..], low);
    var t := (s + rest)[2..];
    assert t == s[..6][2..] + (s[6..] + rest);
    UnitIsHex4(s[..6], high, s[6..] + rest);
    assert t[4..] == s[6..] + rest && t[6..] == s[6..][2..] + rest && t[10..] == rest;
    UnitIsHex4(s[6..], low, rest);
    assert "\\u" <= t[4..] by { assert t[4..][..2] == "\\u"; }
  }

  lemma PairOf(s: string, c: char) returns (high: int, low: int)
    requires CharText(s, c) && |s| == 12
    ensures UnitText(s[..6], high) && UnitText(s[6..], low)
    ensures 0xD800 <= high < 0xDC00 && 0xDC00 <= low < 0xE000
    ensures c as int == 0x1_0000 + 0x400 * (high - 0xD800) + (low - 0xDC00)
  {
    high, low :| UnitText(s[..6], high) && UnitText(s[6..], low)
      && 0xD800 <= high < 0xDC00 && 0xDC00 <= low < 0xE000
      && c as int == 0x1_0000 + 0x400 * (high - 0xD800) + (low - 0xDC00);
  }

  lemma {:induction false} CharsThen(s: string, t: string, rest: string)
    requires CharsText(s, t)
    ensures Chars(s + ['"'] + rest) == Ok(t, rest)
    decreases |t|
  {
    hide CharText, Chars;
    if t == "" {
      assert s + ['"'] + rest == ['"'] + rest;
      QuoteEnds(rest);
    } else {
      var n :| 0 < n <= |s| && CharText(s[..n], t[0]) && CharsText(s[n..], t[1..]);
      CharsThen(s[n..], t[1..], rest);
      CharThen(s[..n], t[0], s[n..] + ['"'] + rest);
      assert s + ['"'] + rest == s[..n] + (s[n..] + ['"'] + rest);
      assert t == [t[0]] + t[1..];
    }
  }

  lemma QuoteEnds(rest: string)
    ensures Chars(['"'] + rest) == Ok("", rest)
  {
    assert (['"'] + rest)[1..] == rest;
  }

  /** What is taken for the inside of a string is one, up to its quote. */
  lemma {:induction false} TakenIsChars(s: string)
    requires Chars(s).Ok?
    ensures var n := |s| - |Chars(s).rest| - 1;
      && n >= 0 && s[n] == '"' && Chars(s).rest == s[n + 1..] && CharsText(s[..n], Chars(s).value)
    decreases |s|
  {
    hide CharText, Chars;
    if s != "" && s[0] == '"' {
      QuoteEnds(s[1..]);
      assert s == ['"'] + s[1..];
    } else {
      NotEmpty(s);
      var k := FirstTaken(s);
      TakenIsChars(s[k..]);
      var n := |s| - |Chars(s).rest| - 1;
      assert s[k..][n - k] == s[n] && s[k..][n - k + 1..] == s[n + 1..];
      assert s[..n][..k] == s[..k] && s[..n][k..] == s[k..][..n - k];
    }
  }

  lemma NotEmpty(s: string)
    requires Chars(s).Ok?
    ensures s != ""
  {}

  /** The first character of a string and how much of the text spells it. */
  lemma {:induction false} FirstTaken(s: string) returns (k: nat)
    requires Chars(s).Ok? && s[0] != '"'
    ensures 0 < k <= |s| && Chars(s[k..]).Ok? && Chars(s).rest == Chars(s[k..]).rest
    ensures Chars(s).value != "" && Chars(s).value[1..] == Chars(s[k..]).value && CharText(s[..k], Chars(s).value[0])
  {
    if s[0] != '\\' {
      k := 1;
    } else if s[1] != 'u' {
      k := 2;
    } else {
      var c := UnicodeEscape(s[2..]);
      k := |s| - |c.rest|;
      EscapeTaken(s);
      assert c.rest == s[k..];
    }
  }

  lemma {:induction false} EscapeTaken(s: string)
    requires |s| >= 2 && s[0] == '\\' && s[1] == 'u' && UnicodeEscape(s[2..]).Ok?
    ensures var c := UnicodeEscape(s[2..]);
      var k := |s| - |c.rest|;
      c.rest == s[k..] && CharText(s[..k], c.value)
  {
    var c := UnicodeEscape(s[2..]);
    var first := Hex4(s[2..]).value;
    Hex4IsUnit(s);
    if 0xD800 <= first < 0xDC00 {
      var t := s[6..];
      assert s[2..][4..] == t && s[2..][6..] == t[2..] && s[2..][10..] == s[12..];
      assert t[0] == '\\' && t[1] == 'u' by { assert t[..2] == "\\u"; }
      Hex4IsUnit(t);
      assert s[..12][..6] == s[..6] && s[..12][6..] == t[..6];
    } else {
      assert s[2..][4..] == s[6..];
    }
  }

  lemma {:induction false} Hex4IsUnit(s: string)
    requires |s| >= 2 && s[0] == '\\' && s[1] == 'u' && Hex4(s[2..]).Some?
    ensures |s| >= 6 && UnitText(s[..6], Hex4(s[2..]).value)
  {
    hide HexDigit, HexDigitOf;
    DigitIs(s[2]);
    DigitIs(s[3]);
    DigitIs(s[4]);
    DigitIs(s[5]);
  }

  lemma DigitIs(c: char)
    ensures HexDigit(c) == if HexDigitOf(c) >= 0 then Some(HexDigitOf(c)) else None
  {}

  // --- Values -----------------------------------------------------------------

  /** The members an object has once the pairs have been assigned, one after another. */
  ghost function Assigned(done: seq<Member>, pairs: seq<Member>): seq<Member>
    decreases |pairs|
  {
    if pairs == [] then done else Assigned(Put(done, pairs[0]), pairs[1..])
  }

  ghost predicate ValueText(canon: string -> Option<string>, s: string, v: Json)
    decreases |s|, 0
  {
    match v
    case Null => s == "null"
    case Bool(b) => s == if b then "true" else "false"
    case Num(text) => NumberText(s) && canon(s) == Some(text)
    case Overflow => NumberText(s) && canon(s) == None
    case Str(t) => StringText(s, t)
    case Arr(items) =>
      && |s| >= 2 && s[0] == '[' && s[|s| - 1] == ']'
      && if items == [] then Ws(s[1..|s| - 1]) else ListText(canon, s[1..|s| - 1], items)
    case Obj(members) =>
      && |s| >= 2 && s[0] == '{' && s[|s| - 1] == '}'
      && ((members == [] && Ws(s[1..|s| - 1]))
          || exists pairs :: pairs != [] && members == Assigned([], pairs) && PairsText(canon, s[1..|s| - 1], pairs))
  }

  /** Values with white space around them and a comma between each two. */
  ghost predicate ListText(canon: string -> Option<string>, s: string, items: seq<Json>)
    requires items != []
    decreases |s|, 1
  {
    exists i, j, k :: 0 <= i <= j <= k <= |s|
      && Ws(s[..i]) && ValueText(canon, s[i..j], items[0]) && Ws(s[j..k])
      && if |items| == 1 then k == |s| else k < |s| && s[k] == ',' && ListText(canon, s[k + 1..], items[1..])
  }

  /** A name, a colon and a value, with white space around the colon. */
  ghost predicate PairText(canon: string -> Option<string>, s: string, pair: Member)
    decreases |s|, 1
  {
    exists i, j, k :: 0 <= i <= j < k <= |s|
      && StringText(s[..i], pair.key) && Ws(s[i..j]) && s[j] == ':' && Ws(s[j + 1..k])
      && ValueText(canon, s[k..], pair.value)
  }

  ghost predicate PairsText(canon: string -> Option<string>, s: string, pairs: seq<Member>)
    requires pairs != []
    decreases |s|, 2
  {
    exists i, j, k :: 0 <= i <= j <= k <= |s|
      && Ws(s[..i]) && PairText(canon, s[i..j], pairs[0]) && Ws(s[j..k])
      && if |pairs| == 1 then k == |s| else k < |s| && s[k] == ',' && PairsText(canon, s[k + 1..], pairs[1..])
  }

  /** A JSON text: a value with white space around it. */
  ghost predicate JsonTextOf(canon: string -> Option<string>, s: string, v: Json) {
    exists i, j :: 0 <= i <= j <= |s| && Ws(s[..i]) && ValueText(canon, s[i..j], v) && Ws(s[j..])
  }

  // --- What an object keeps of its pairs --------------------------------------

  /** The pair is the last that names its key. */
  ghost predicate IsLast(pairs: seq<Member>, m: Member) {
    exists i :: 0 <= i < |pairs| && pairs[i] == m && forall j :: i < j < |pairs| ==> pairs[j].key != m.key
  }

  /** The keys that spell no array index, as they come. */
  ghost function PlainKeys(members: seq<Member>): seq<string> {
    if members == [] then []
    else
      var last := members[|members| - 1];
      PlainKeys(members[..|members| - 1]) + if IndexOfKey(last.key).None? then [last.key] else []
  }

  lemma PlainSnoc(front: seq<Member>, last: Member)
    ensures PlainKeys(front + [last]) == PlainKeys(front) + if IndexOfKey(last.key).None? then [last.key] else []
  {
    assert (front + [last])[..|front|] == front;
  }

  lemma {:induction false} AssignedSnoc(done: seq<Member>, pairs: seq<Member>, m: Member)
    ensures Assigned(done, pairs + [m]) == Put(Assigned(done, pairs), m)
    decreases |pairs|
  {
    hide Put;
    if pairs == [] {
      AssignedOne(done, m);
      assert pairs + [m] == [m];
    } else {
      AssignedSnoc(Put(done, pairs[0]), pairs[1..], m);
      assert (pairs + [m])[1..] == pairs[1..] + [m];
    }
  }

  lemma {:induction false} PlainOfPut(members: seq<Member>, m: Member)
    ensures PlainKeys(Put(members, m)) ==
      PlainKeys(members) + if IndexOfKey(m.key).None? && m.key !in KeySet(members) then [m.key] else []
    decreases |members|
  {
    hide IndexOfKey, Put, PlainKeys, KeySet;
    PutFirst(m);
    if members != [] {
      var front, last := members[..|members| - 1], members[|members| - 1];
      assert members == front + [last];
      PlainOfPut(front, m);
      PlainOfPutSnoc(front, last, m);
    }
  }

  lemma {:induction false} PlainOfPutSnoc(front: seq<Member>, last: Member, m: Member)
    requires PlainKeys(Put(front, m)) ==
      PlainKeys(front) + if IndexOfKey(m.key).None? && m.key !in KeySet(front) then [m.key] else []
    ensures var members := front + [last];
      PlainKeys(Put(members, m)) ==
        PlainKeys(members) + if IndexOfKey(m.key).None? && m.key !in KeySet(members) then [m.key] else []
  {
    hide IndexOfKey, Put, PlainKeys, KeySet;
    PutCases(front, last, m);
    PlainSnoc(front, last);
    PlainSnoc(front, m);
    PlainSnoc(front + [last], m);
    PlainSnoc(Put(front, m), last);
    KeysSnoc(front, last);
  }

  lemma KeysSnoc(front: seq<Member>, last: Member)
    ensures KeySet(front + [last]) == KeySet(front) + {last.key}
  {}

  lemma PutFirst(m: Member)
    ensures Put([], m) == [m] && PlainKeys([]) == [] && KeySet([]) == {}
    ensures PlainKeys([m]) == if IndexOfKey(m.key).None? then [m.key] else []
  {
    assert [m][..0] == [];
  }

  lemma {:induction false} PlainAreKeys(members: seq<Member>)
    ensures forall k :: k in PlainKeys(members) <==> k in KeySet(members) && IndexOfKey(k).None?
  {
    hide IndexOfKey;
    if members != [] {
      var front, last := members[..|members| - 1], members[|members| - 1];
      assert members == front + [last];
      PlainAreKeys(front);
      assert KeySet(members) == KeySet(front) + {last.key};
    }
  }

  lemma LastSnoc(front: seq<Member>, m: Member, x: Member)
    ensures IsLast(front + [m], x) <==> x == m || (IsLast(front, x) && x.key != m.key)
  {
    var all := front + [m];
    if IsLast(front, x) && x.key != m.key {
      var i :| 0 <= i < |front| && front[i] == x && forall j :: i < j < |front| ==> front[j].key != x.key;
      assert all[i] == x && forall j :: i < j < |all| ==> all[j].key != x.key;
    }
    if IsLast(all, x) && x != m {
      var i :| 0 <= i < |all| && all[i] == x && forall j :: i < j < |all| ==> all[j].key != x.key;
      assert all[|front|] == m;
      assert front[i] == x && forall j :: i < j < |front| ==> all[j] == front[j];
    }
    if x == m { assert all[|front|] == x; }
  }

  /**
    An object keeps the last pair of each key: the indices first and ascending, then the
    other keys in the order they first came in.
   */
  lemma {:induction false} ObjectOfPairs(pairs: seq<Member>)
    ensures var members := Assigned([], pairs);
      && InOrder(members)
      && (forall m :: m in members <==> IsLast(pairs, m))
      && PlainKeys(members) == Dedup(PlainKeys(pairs))
      && KeySet(members) == KeySet(pairs)
  {
    hide Put, IndexOfKey, InOrder, IsLast, PlainKeys, KeySet, Dedup, Assigned;
    NothingAssigned();
    if pairs != [] {
      var front, m := pairs[..|pairs| - 1], pairs[|pairs| - 1];
      assert pairs == front + [m];
      ObjectOfPairs(front);
      var before := Assigned([], front);
      AssignedSnoc([], front, m);
      PutKeepsOrder(before, m);
      KeysSnoc(front, m);
      forall x ensures IsLast(pairs, x) <==> x in Put(before, m) {
        LastSnoc(front, m, x);
      }
      PlainOfPut(before, m);
      PlainSnoc(front, m);
      FirstOfEach(front, m.key);
    }
  }

  lemma FirstOfEach(front: seq<Member>, key: string)
    ensures Dedup(PlainKeys(front) + if IndexOfKey(key).None? then [key] else []) ==
      Dedup(PlainKeys(front)) + if IndexOfKey(key).None? && key !in KeySet(front) then [key] else []
  {
    hide PlainKeys, KeySet, IndexOfKey;
    PlainAreKeys(front);
    var keys := PlainKeys(front);
    assert (keys + [key])[..|keys|] == keys && keys + [] == keys;
  }

  lemma NothingAssigned()
    ensures Assigned([], []) == [] && InOrder([]) && PlainKeys([]) == Dedup(PlainKeys([]))
    ensures forall m :: !IsLast([], m)
  {}

  // --- White space ------------------------------------------------------------

  lemma {:induction false} LeadIs(s: string) returns (n: nat)
    ensures n <= |s| && Ws(s[..n]) && SkipWs(s) == s[n..]
  {
    if s != [] && IsWs(s[0]) {
      var m := LeadIs(s[1..]);
      n := m + 1;
      assert s[..n] == [s[0]] + s[1..][..m];
    } else {
      n := 0;
    }
  }

  lemma {:induction false} WsThen(w: string, rest: string)
    requires Ws(w)
    ensures SkipWs(w + rest) == SkipWs(rest)
  {
    if w == "" {
      assert w + rest == rest;
    } else {
      assert (w + rest)[1..] == w[1..] + rest;
      WsThen(w[1..], rest);
    }
  }

  lemma {:induction false} WsStops(w: string, rest: string)
    requires Ws(w) && Stops(rest)
    ensures Stops(w + rest)
  {
    assert w == "" ==> w + rest == rest;
  }

  lemma WsJoins(a: string, b: string)
    requires Ws(a) && Ws(b)
    ensures Ws(a + b)
  {}

  /** A value's text begins with no white space and no closing bracket. */
  lemma {:induction false} ValueBegins(canon: string -> Option<string>, s: string, v: Json)
    requires ValueText(canon, s, v)
    ensures s != "" && '!' <= s[0] <= '~' && s[0] != ']' && s[0] != '}'
  {
    if v.Num? || v.Overflow? { NumberBegins(s); }
  }

  lemma {:induction false} NumberBegins(s: string)
    requires NumberText(s)
    ensures s != "" && (s[0] == '-' || '0' <= s[0] <= '9')
  {
    var p, q, r :| 0 <= p <= q <= r <= |s|
      && (s[..p] == "" || s[..p] == "-")
      && WholeText(s[p..q]) && FractionText(s[q..r]) && ExponentText(s[r..]);
    PartsBegin(s[p..q], s[q..r], s[r..]);
    assert p == 0 ==> s[0] == s[p..q][0];
    assert p > 0 ==> s[0] == s[..p][0];
  }

  // --- What the grammar spells is read ----------------------------------------

  lemma {:induction false} ValueThen(canon: string -> Option<string>, s: string, v: Json, rest: string)
    requires ValueText(canon, s, v) && Stops(rest)
    ensures Value(canon, s + rest) == Ok(v, rest)
    decreases |s|, 0
  {
    hide Value, Chars, NumberText, Stops, Ws, ListText, PairsText, Items, Members;
    match v
    case Num(_) => NumberRead(canon, s, rest);
    case Overflow => NumberRead(canon, s, rest);
    case Str(t) =>
      StringThen(s, t, rest);
      StringRead(canon, s, rest);
    case Arr(items) =>
      var inner := s[1..|s| - 1];
      assert s + rest == ['['] + (inner + ([']'] + rest));
      if items == [] {
        EmptyArray(canon, inner, rest);
      } else {
        ListThen(canon, inner, items, [], rest);
        assert [] + items == items;
        ListRead(canon, inner, items, rest);
      }
    case Obj(members) =>
      var inner := s[1..|s| - 1];
      assert s + rest == ['{'] + (inner + (['}'] + rest));
      if members == [] && Ws(inner) {
        EmptyObject(canon, inner, rest);
      } else {
        var pairs :| pairs != [] && members == Assigned([], pairs) && PairsText(canon, inner, pairs);
        PairsThen(canon, inner, pairs, [], rest);
        PairsRead(canon, inner, pairs, rest);
      }
    case _ => WordRead(canon, s, v, rest);
  }

  lemma {:induction false} WordRead(canon: string -> Option<string>, s: string, v: Json, rest: string)
    requires (v.Null? && s == "null") || (v.Bool? && s == if v.b then "true" else "false")
    ensures Value(canon, s + rest) == Ok(v, rest)
  {
    hide NumberLength, Chars, SkipWs, Items, Members;
    var all := s + rest;
    assert s <= all && all[|s|..] == rest && all[0] == s[0];
  }

  lemma {:induction false} NumberRead(canon: string -> Option<string>, s: string, rest: string)
    requires NumberText(s) && Stops(rest)
    ensures Value(canon, s + rest) == Ok(if canon(s).Some? then Num(canon(s).value) else Overflow, rest)
  {
    hide NumberLength, Chars, SkipWs, Items, Members, NumberText, Stops;
    NumberBegins(s);
    NumberThen(s, rest);
    var all := s + rest;
    assert all[0] == s[0] && all[..|s|] == s && all[|s|..] == rest;
  }

  lemma {:induction false} StringThen(s: string, t: string, rest: string)
    requires StringText(s, t)
    ensures s != "" && s[0] == '"' && Chars((s + rest)[1..]) == Ok(t, rest)
  {
    hide Chars, CharsText;
    CharsThen(s[1..|s| - 1], t, rest);
    assert (s + rest)[1..] == s[1..|s| - 1] + ['"'] + rest;
  }

  lemma {:induction false} StringRead(canon: string -> Option<string>, s: string, rest: string)
    requires s != "" && s[0] == '"'
    ensures Value(canon, s + rest) ==
      var text := Chars((s + rest)[1..]);
      if text.Bad? then Bad else Ok(Str(text.value), text.rest)
  {
    hide NumberLength, Chars, SkipWs, Items, Members;
    assert (s + rest)[0] == '"';
  }

  lemma {:induction false} EmptyArray(canon: string -> Option<string>, w: string, rest: string)
    requires Ws(w)
    ensures Value(canon, ['['] + (w + ([']'] + rest))) == Ok(Arr([]), rest)
  {
    hide SkipWs, Value;
    WsThen(w, [']'] + rest);
    NoWs([']'] + rest);
    assert ([']'] + rest)[1..] == rest;
    ValueOfArray(canon, w + ([']'] + rest));
  }

  lemma {:induction false} EmptyObject(canon: string -> Option<string>, w: string, rest: string)
    requires Ws(w)
    ensures Value(canon, ['{'] + (w + (['}'] + rest))) == Ok(Obj([]), rest)
  {
    hide SkipWs, Value;
    WsThen(w, ['}'] + rest);
    NoWs(['}'] + rest);
    assert (['}'] + rest)[1..] == rest;
    ValueOfObject(canon, w + (['}'] + rest));
  }

  lemma NoWs(s: string)
    requires s != "" && !IsWs(s[0])
    ensures SkipWs(s) == s
  {}

  lemma {:induction false} ListRead(canon: string -> Option<string>, inner: string, items: seq<Json>, rest: string)
    requires items != [] && ListText(canon, inner, items)
    requires Items(canon, SkipWs(inner + ([']'] + rest)), []) == Ok(Arr(items), rest)
    ensures Value(canon, ['['] + (inner + ([']'] + rest))) == Ok(Arr(items), rest)
  {
    hide Value, Items, SkipWs, Ws;
    ListBegins(canon, inner, items, [']'] + rest);
    ValueOfArray(canon, inner + ([']'] + rest));
  }

  lemma {:induction false} ListBegins(canon: string -> Option<string>, s: string, items: seq<Json>, rest: string)
    requires items != [] && ListText(canon, s, items)
    ensures SkipWs(s + rest) != "" && SkipWs(s + rest)[0] != ']'
  {
    hide ValueText, ListText, Ws;
    var i, j, k := FirstItem(canon, s, items);
    ValueBegins(canon, s[i..j], items[0]);
    WsThen(s[..i], s[i..] + rest);
    assert s + rest == s[..i] + (s[i..] + rest) && (s[i..] + rest)[0] == s[i..j][0];
    NoWs(s[i..] + rest);
  }

  lemma FirstItem(canon: string -> Option<string>, s: string, items: seq<Json>) returns (i: nat, j: nat, k: nat)
    requires items != [] && ListText(canon, s, items)
    ensures i <= j <= k <= |s| && Ws(s[..i]) && ValueText(canon, s[i..j], items[0]) && Ws(s[j..k])
    ensures if |items| == 1 then k == |s| else k < |s| && s[k] == ',' && ListText(canon, s[k + 1..], items[1..])
  {
    hide ValueText, Ws;
    i, j, k :| 0 <= i <= j <= k <= |s|
      && Ws(s[..i]) && ValueText(canon, s[i..j], items[0]) && Ws(s[j..k])
      && if |items| == 1 then k == |s| else k < |s| && s[k] == ',' && ListText(canon, s[k + 1..], items[1..]);
  }

  lemma {:induction false} ListThen(
      canon: string -> Option<string>, s: string, items: seq<Json>, done: seq<Json>, rest: string)
    requires items != [] && ListText(canon, s, items)
    ensures Items(canon, SkipWs(s + ([']'] + rest)), done) == Ok(Arr(done + items), rest)
    decreases |s|, 1
  {
    hide Value, Items, SkipWs, ValueText, ListText, Ws, Stops, NumberText;
    var i, j, k := FirstItem(canon, s, items);
    var t := s[i..j];
    ValueBegins(canon, t, items[0]);
    var after := s[k..] + ([']'] + rest);
    var tail := s[j..k] + after;
    assert s + ([']'] + rest) == s[..i] + (t + tail);
    WsThen(s[..i], t + tail);
    NoWs(t + tail);
    WsThen(s[j..k], after);
    CloserStops(']', rest);
    if |items| == 1 {
      assert after == [']'] + rest;
      WsStops(s[j..k], after);
      ValueThen(canon, t, items[0], tail);
      NoWs(after);
      LastItemRead(canon, t, items[0], tail, done, rest);
      assert items == [items[0]];
    } else {
      assert after == [','] + (s[k + 1..] + ([']'] + rest));
      CloserStops(',', s[k + 1..] + ([']'] + rest));
      WsStops(s[j..k], after);
      ValueThen(canon, t, items[0], tail);
      NoWs(after);
      ListThen(canon, s[k + 1..], items[1..], done + [items[0]], rest);
      NextItemRead(canon, t, items[0], tail, done, s[k + 1..] + ([']'] + rest));
      assert done + [items[0]] + items[1..] == done + items;
    }
  }

  lemma CloserStops(c: char, rest: string)
    requires c == ']' || c == '}' || c == ','
    ensures Stops([c] + rest)
  {}

  lemma {:induction false} LastItemRead(
      canon: string -> Option<string>, t: string, v: Json, tail: string, done: seq<Json>, rest: string)
    requires Value(canon, t + tail) == Ok(v, tail) && SkipWs(tail) == [']'] + rest
    ensures Items(canon, t + tail, done) == Ok(Arr(done + [v]), rest)
  {
    hide Value, SkipWs;
    assert ([']'] + rest)[1..] == rest;
  }

  lemma {:induction false} NextItemRead(
      canon: string -> Option<string>, t: string, v: Json, tail: string, done: seq<Json>, more: string)
    requires Value(canon, t + tail) == Ok(v, tail) && SkipWs(tail) == [','] + more
    ensures Items(canon, t + tail, done) == Items(canon, SkipWs(more), done + [v])
  {
    hide Value, SkipWs;
    assert ([','] + more)[1..] == more;
  }

  // --- The same of objects ----------------------------------------------------

  lemma {:induction false} PairsRead(canon: string -> Option<string>, inner: string, pairs: seq<Member>, rest: string)
    requires pairs != [] && PairsText(canon, inner, pairs)
    requires Members(canon, SkipWs(inner + (['}'] + rest)), []) == Ok(Obj(Assigned([], pairs)), rest)
    ensures Value(canon, ['{'] + (inner + (['}'] + rest))) == Ok(Obj(Assigned([], pairs)), rest)
  {
    hide Value, Members, SkipWs, PairsText;
    PairsBegin(canon, inner, pairs, ['}'] + rest);
    ValueOfObject(canon, inner + (['}'] + rest));
  }

  lemma {:induction false} PairsBegin(canon: string -> Option<string>, s: string, pairs: seq<Member>, rest: string)
    requires pairs != [] && PairsText(canon, s, pairs)
    ensures SkipWs(s + rest) != "" && SkipWs(s + rest)[0] == '"'
  {
    hide SkipWs, Ws, PairText, PairsText;
    var i, j, k := FirstPair(canon, s, pairs);
    PairBegins(canon, s[i..j], pairs[0]);
    WsThen(s[..i], s[i..] + rest);
    assert s + rest == s[..i] + (s[i..] + rest) && (s[i..] + rest)[0] == s[i..j][0];
    NoWs(s[i..] + rest);
  }

  lemma PairBegins(canon: string -> Option<string>, s: string, pair: Member)
    requires PairText(canon, s, pair)
    ensures s != "" && s[0] == '"'
  {}

  lemma FirstPair(canon: string -> Option<string>, s: string, pairs: seq<Member>) returns (i: nat, j: nat, k: nat)
    requires pairs != [] && PairsText(canon, s, pairs)
    ensures i <= j <= k <= |s| && Ws(s[..i]) && PairText(canon, s[i..j], pairs[0]) && Ws(s[j..k])
    ensures if |pairs| == 1 then k == |s| else k < |s| && s[k] == ',' && PairsText(canon, s[k + 1..], pairs[1..])
  {
    hide PairText, Ws;
    i, j, k :| 0 <= i <= j <= k <= |s|
      && Ws(s[..i]) && PairText(canon, s[i..j], pairs[0]) && Ws(s[j..k])
      && if |pairs| == 1 then k == |s| else k < |s| && s[k] == ',' && PairsText(canon, s[k + 1..], pairs[1..]);
  }

  lemma PartsOfPair(canon: string -> Option<string>, s: string, pair: Member) returns (i: nat, j: nat, k: nat)
    requires PairText(canon, s, pair)
    ensures i <= j < k <= |s| && StringText(s[..i], pair.key) && Ws(s[i..j]) && s[j] == ':' && Ws(s[j + 1..k])
    ensures ValueText(canon, s[k..], pair.value)
  {
    hide ValueText, Ws, StringText;
    i, j, k :| 0 <= i <= j < k <= |s|
      && StringText(s[..i], pair.key) && Ws(s[i..j]) && s[j] == ':' && Ws(s[j + 1..k])
      && ValueText(canon, s[k..], pair.value);
  }

  /** A pair's text at the front of a text: its name, its colon and its value are read in turn. */
  lemma {:induction false} OnePairThen(canon: string -> Option<string>, s: string, pair: Member, tail: string)
    requires PairText(canon, s, pair) && Stops(tail)
    ensures s != "" && s[0] == '"'
    ensures var key := Chars((s + tail)[1..]);
      && key.Ok? && key.value == pair.key
      && var t := SkipWs(key.rest);
         t != [] && t[0] == ':' && Value(canon, SkipWs(t[1..])) == Ok(pair.value, tail)
    decreases |s|, 1
  {
    hide Value, Chars, SkipWs, ValueText, Ws, Stops, StringText;
    var i, j, k := PartsOfPair(canon, s, pair);
    var value := s[k..];
    var t := [':'] + (s[j + 1..k] + (value + tail));
    StringThen(s[..i], pair.key, s[i..j] + t);
    assert s + tail == s[..i] + (s[i..j] + t);
    WsThen(s[i..j], t);
    NoWs(t);
    assert t[1..] == s[j + 1..k] + (value + tail);
    ValueBegins(canon, value, pair.value);
    WsThen(s[j + 1..k], value + tail);
    NoWs(value + tail);
    ValueThen(canon, value, pair.value, tail);
  }

  lemma {:induction false} PairsThen(
      canon: string -> Option<string>, s: string, pairs: seq<Member>, done: seq<Member>, rest: string)
    requires pairs != [] && PairsText(canon, s, pairs)
    ensures Members(canon, SkipWs(s + (['}'] + rest)), done) == Ok(Obj(Assigned(done, pairs)), rest)
    decreases |s|, 2
  {
    hide Value, Members, SkipWs, PairText, PairsText, Ws, Stops, Chars, Put;
    var i, j, k := FirstPair(canon, s, pairs);
    var t := s[i..j];
    PairBegins(canon, t, pairs[0]);
    var after := s[k..] + (['}'] + rest);
    var tail := s[j..k] + after;
    assert s + (['}'] + rest) == s[..i] + (t + tail);
    WsThen(s[..i], t + tail);
    NoWs(t + tail);
    WsThen(s[j..k], after);
    CloserStops('}', rest);
    if |pairs| == 1 {
      assert after == ['}'] + rest;
      WsStops(s[j..k], after);
      OnePairThen(canon, t, pairs[0], tail);
      NoWs(after);
      LastPairRead(canon, t, pairs[0], tail, done, rest);
      assert pairs[1..] == [];
    } else {
      assert after == [','] + (s[k + 1..] + (['}'] + rest));
      CloserStops(',', s[k + 1..] + (['}'] + rest));
      WsStops(s[j..k], after);
      OnePairThen(canon, t, pairs[0], tail);
      NoWs(after);
      PairsThen(canon, s[k + 1..], pairs[1..], Put(done, pairs[0]), rest);
      NextPairRead(canon, t, pairs[0], tail, done, s[k + 1..] + (['}'] + rest));
    }
  }

  /** What reading the pair at the front gives, before the comma or the brace. */
  ghost predicate PairReads(canon: string -> Option<string>, t: string, pair: Member, tail: string) {
    && t != "" && t[0] == '"'
    && var key := Chars((t + tail)[1..]);
       && key.Ok? && key.value == pair.key
       && var u := SkipWs(key.rest);
          u != [] && u[0] == ':' && Value(canon, SkipWs(u[1..])) == Ok(pair.value, tail)
  }

  lemma {:induction false} LastPairRead(
      canon: string -> Option<string>, t: string, pair: Member, tail: string, done: seq<Member>, rest: string)
    requires PairReads(canon, t, pair, tail) && SkipWs(tail) == ['}'] + rest
    ensures Members(canon, t + tail, done) == Ok(Obj(Put(done, pair)), rest)
  {
    hide Value, SkipWs, Chars, Put;
    assert (t + tail)[0] == '"' && (['}'] + rest)[1..] == rest;
  }

  lemma {:induction false} NextPairRead(
      canon: string -> Option<string>, t: string, pair: Member, tail: string, done: seq<Member>, more: string)
    requires PairReads(canon, t, pair, tail) && SkipWs(tail) == [','] + more
    ensures Members(canon, t + tail, done) == Members(canon, SkipWs(more), Put(done, pair))
  {
    hide Value, SkipWs, Chars, Put;
    assert (t + tail)[0] == '"' && ([','] + more)[1..] == more;
  }
  // --- What is read is what the grammar spells --------------------------------

  /** The text taken for a value, up to the rest, spells that value. */
  ghost predicate Taken(canon: string -> Option<string>, s: string, v: Json, rest: string) {
    |rest| <= |s| && rest == s[|s| - |rest|..] && ValueText(canon, s[..|s| - |rest|], v)
  }

  lemma {:induction false} ValueTaken(canon: string -> Option<string>, s: string)
    requires Value(canon, s).Ok?
    ensures Taken(canon, s, Value(canon, s).value, Value(canon, s).rest)
    decreases |s|, 0
  {
    hide Taken, Chars, NumberLength, ValueText;
    if "null" <= s || "true" <= s || "false" <= s {
      WordTaken(canon, s);
    } else if s[0] == '"' {
      StringTaken(canon, s);
    } else if s[0] == '[' {
      var n := LeadIs(s[1..]);
      var t := s[1..][n..];
      if t != [] && t[0] == ']' {
        EmptyTaken(canon, s, n, '[', ']');
      } else {
        ItemsTaken(canon, t, []);
        ArrayTaken(canon, s, n);
      }
    } else if s[0] == '{' {
      var n := LeadIs(s[1..]);
      var t := s[1..][n..];
      if t != [] && t[0] == '}' {
        EmptyTaken(canon, s, n, '{', '}');
      } else {
        var pairs := MembersTaken(canon, t, []);
        ObjectTaken(canon, s, n, pairs);
      }
    } else {
      NumberTaken(canon, s);
    }
  }

  lemma {:induction false} WordTaken(canon: string -> Option<string>, s: string)
    requires "null" <= s || "true" <= s || "false" <= s
    ensures Value(canon, s).Ok? && Taken(canon, s, Value(canon, s).value, Value(canon, s).rest)
  {
    hide NumberLength, Chars, SkipWs, Items, Members;
    if "null" <= s {
      assert s[..4] == "null";
    } else if "true" <= s {
      assert s[..4] == "true";
    } else {
      assert s[..5] == "false";
    }
  }

  lemma {:induction false} StringTaken(canon: string -> Option<string>, s: string)
    requires s != [] && s[0] == '"' && Value(canon, s).Ok?
    ensures Taken(canon, s, Value(canon, s).value, Value(canon, s).rest)
  {
    hide NumberLength, Chars, CharsText, SkipWs, Items, Members;
    TakenIsChars(s[1..]);
    var rest := Chars(s[1..]).rest;
    var n := |s| - |rest|;
    assert s[..n][1..n - 1] == s[1..][..n - 2];
  }

  lemma {:induction false} NumberTaken(canon: string -> Option<string>, s: string)
    requires s != [] && s[0] !in {'"', '[', '{'} && !("null" <= s) && !("true" <= s) && !("false" <= s)
    requires Value(canon, s).Ok?
    ensures Taken(canon, s, Value(canon, s).value, Value(canon, s).rest)
  {
    hide NumberLength, Chars, SkipWs, Items, Members, NumberText;
    TakenIsNumber(s);
  }

  lemma {:induction false} EmptyTaken(canon: string -> Option<string>, s: string, n: nat, open: char, close: char)
    requires s != [] && s[0] == open && ((open == '[' && close == ']') || (open == '{' && close == '}'))
    requires n < |s| - 1 && Ws(s[1..][..n]) && SkipWs(s[1..]) == s[1..][n..] && s[1..][n] == close
    ensures Value(canon, s).Ok? && Taken(canon, s, Value(canon, s).value, Value(canon, s).rest)
  {
    hide NumberLength, Chars, SkipWs, Items, Members, Ws;
    var text := s[..n + 2];
    assert text[1..|text| - 1] == s[1..][..n] && s[1..][n..][1..] == s[n + 2..];
    assert |s[n + 2..]| == |s| - (n + 2);
  }

  /** What reading items gives, from the first of them to behind the bracket. */
  ghost predicate ListTaken(canon: string -> Option<string>, s: string, done: seq<Json>, v: Json, rest: string) {
    && v.Arr? && |v.items| > |done| && done == v.items[..|done|]
    && |rest| < |s| && rest == s[|s| - |rest|..] && s[|s| - |rest| - 1] == ']'
    && ListText(canon, s[..|s| - |rest| - 1], v.items[|done|..])
  }

  lemma {:induction false} ItemsTaken(canon: string -> Option<string>, s: string, done: seq<Json>)
    requires Items(canon, s, done).Ok?
    ensures ListTaken(canon, s, done, Items(canon, s, done).value, Items(canon, s, done).rest)
    decreases |s|, 1
  {
    hide Value, SkipWs, ListTaken, ValueText, Ws;
    ValueTaken(canon, s);
    var item := Value(canon, s);
    var n := LeadIs(item.rest);
    Behind(s, item.rest, n);
    var j := |s| - |item.rest|;
    var k := j + n;
    if s[k] == ']' {
      LastTaken(canon, s, done, item.value, j, k);
    } else {
      var m := LeadIs(s[k + 1..]);
      var start := k + 1 + m;
      Behind(s, s[k + 1..], m);
      ItemsTaken(canon, s[start..], done + [item.value]);
      NextTaken(canon, s, done, item.value, j, k, start, Items(canon, s, done).value, Items(canon, s, done).rest);
    }
  }

  /** Where a rest of a text stands in it. */
  lemma {:induction false} Behind(s: string, rest: string, n: nat)
    requires |rest| <= |s| && rest == s[|s| - |rest|..] && n <= |rest|
    ensures var j := |s| - |rest|;
      && rest[..n] == s[j..j + n] && rest[n..] == s[j + n..]
      && (n < |rest| ==> rest[n] == s[j + n] && rest[n..][1..] == s[j + n + 1..])
  {}

  lemma {:induction false} LastTaken(
      canon: string -> Option<string>, s: string, done: seq<Json>, v: Json, j: nat, k: nat)
    requires j <= k < |s| && ValueText(canon, s[..j], v) && Ws(s[j..k]) && s[k] == ']'
    ensures ListTaken(canon, s, done, Arr(done + [v]), s[k + 1..])
  {
    hide ValueText, Ws, ListText;
    ListOfOne(canon, s, j, k, [v]);
    assert (done + [v])[|done|..] == [v] && (done + [v])[..|done|] == done;
  }

  lemma {:induction false} ListOfOne(canon: string -> Option<string>, s: string, j: nat, k: nat, items: seq<Json>)
    requires j <= k <= |s| && |items| == 1 && ValueText(canon, s[..j], items[0]) && Ws(s[j..k])
    ensures ListText(canon, s[..k], items)
  {
    hide ValueText, Ws;
    var inner := s[..k];
    assert inner[..0] == "" && Ws("") by { NoWsIsWs(); }
    assert inner[0..j] == s[..j] && inner[j..k] == s[j..k];
  }

  lemma NoWsIsWs()
    ensures Ws("")
  {}

  lemma {:induction false} NextTaken(
      canon: string -> Option<string>, s: string, done: seq<Json>, v: Json, j: nat, k: nat, start: nat,
      all: Json, end: string)
    requires j <= k < start <= |s| && ValueText(canon, s[..j], v) && Ws(s[j..k]) && s[k] == ','
    requires Ws(s[k + 1..start]) && ListTaken(canon, s[start..], done + [v], all, end)
    ensures ListTaken(canon, s, done, all, end)
  {
    hide ValueText, Ws, ListText;
    Ahead(s, start, end);
    OneMore(done, v, all.items);
    ListOfMore(canon, s, j, k, start, |s| - |end| - 1, all.items[|done|..]);
  }

  lemma OneMore<T>(done: seq<T>, v: T, all: seq<T>)
    requires |all| > |done| && done + [v] == all[..|done| + 1]
    ensures all[|done|..][0] == v && all[|done|..][1..] == all[|done| + 1..] && all[..|done|] == done
  {
    assert all[..|done|] == all[..|done| + 1][..|done|];
  }

  /** Where the end of a text's rest stands in it. */
  lemma Ahead(s: string, start: nat, end: string)
    requires start <= |s| && |end| < |s[start..]| && end == s[start..][|s[start..]| - |end|..]
    ensures var stop := |s| - |end| - 1;
      && start <= stop && end == s[|s| - |end|..]
      && s[start..][..|s[start..]| - |end| - 1] == s[start..stop]
      && s[start..][|s[start..]| - |end| - 1] == s[stop]
  {}

  lemma {:induction false} ListOfMore(
      canon: string -> Option<string>, s: string, j: nat, k: nat, start: nat, stop: nat, items: seq<Json>)
    requires j <= k < start <= stop <= |s| && |items| > 1
    requires ValueText(canon, s[..j], items[0]) && Ws(s[j..k]) && s[k] == ',' && Ws(s[k + 1..start])
    requires ListText(canon, s[start..stop], items[1..])
    ensures ListText(canon, s[..stop], items)
  {
    hide ValueText, Ws, ListText;
    var inner := s[..stop];
    ListBehind(canon, s[k + 1..start], s[start..stop], items[1..]);
    assert inner[k + 1..] == s[k + 1..start] + s[start..stop];
    assert inner[..0] == "" && Ws("") by { NoWsIsWs(); }
    assert inner[0..j] == s[..j] && inner[j..k] == s[j..k] && inner[k] == ',';
    ListOf(canon, inner, items, 0, j, k);
  }

  lemma ListOf(canon: string -> Option<string>, s: string, items: seq<Json>, i: nat, j: nat, k: nat)
    requires |items| > 1 && i <= j <= k < |s|
    requires Ws(s[..i]) && ValueText(canon, s[i..j], items[0]) && Ws(s[j..k]) && s[k] == ','
    requires ListText(canon, s[k + 1..], items[1..])
    ensures ListText(canon, s, items)
  {
    hide ValueText, Ws;
  }

  lemma ListOfJust(canon: string -> Option<string>, s: string, items: seq<Json>, i: nat, j: nat)
    requires |items| == 1 && i <= j <= |s|
    requires Ws(s[..i]) && ValueText(canon, s[i..j], items[0]) && Ws(s[j..|s|])
    ensures ListText(canon, s, items)
  {
    hide ValueText, Ws;
  }

  /** White space before a list belongs to it. */
  lemma {:induction false} ListBehind(canon: string -> Option<string>, w: string, s: string, items: seq<Json>)
    requires items != [] && Ws(w) && ListText(canon, s, items)
    ensures ListText(canon, w + s, items)
  {
    hide ValueText, Ws, ListText;
    var i, j, k := FirstItem(canon, s, items);
    var all, d := w + s, |w|;
    WsJoins(w, s[..i]);
    Shifted(w, s, i, j, k);
    if |items| > 1 {
      ListOf(canon, all, items, d + i, d + j, d + k);
    } else {
      ListOfJust(canon, all, items, d + i, d + j);
    }
  }

  lemma Shifted(w: string, s: string, i: nat, j: nat, k: nat)
    requires i <= j <= k <= |s|
    ensures var all, d := w + s, |w|;
      && all[..d + i] == w + s[..i] && all[d + i..d + j] == s[i..j] && all[d + j..d + k] == s[j..k]
      && (k < |s| ==> all[d + k] == s[k] && all[d + k + 1..] == s[k + 1..])
      && (k == |s| ==> all[d + j..|all|] == s[j..k])
  {}

  lemma {:induction false} ArrayTaken(canon: string -> Option<string>, s: string, n: nat)
    requires s != [] && s[0] == '[' && n <= |s| - 1 && Ws(s[1..][..n]) && SkipWs(s[1..]) == s[1..][n..]
    requires var t := s[1..][n..];
      && !(t != [] && t[0] == ']') && Items(canon, t, []).Ok?
      && ListTaken(canon, t, [], Items(canon, t, []).value, Items(canon, t, []).rest)
    ensures Value(canon, s).Ok? && Taken(canon, s, Value(canon, s).value, Value(canon, s).rest)
  {
    hide Value, SkipWs, Items, ListText, Ws, Taken;
    var t := s[1..][n..];
    var read := Items(canon, t, []);
    Behind(s, s[1..], n);
    Ahead(s, 1 + n, read.rest);
    assert read.value.items[0..] == read.value.items;
    Bracketed(canon, s, 1 + n, |s| - |read.rest| - 1, read.value.items, read.rest);
    assert s == ['['] + s[1..];
    NotClosedAtOnce(canon, s[1..], t);
  }

  lemma NotClosedAtOnce(canon: string -> Option<string>, u: string, t: string)
    requires SkipWs(u) == t && !(t != [] && t[0] == ']')
    ensures Value(canon, ['['] + u) == Items(canon, t, [])
  {
    hide SkipWs, Items, Members, NumberLength, Chars;
    assert (['['] + u)[0] == '[' && (['['] + u)[1..] == u;
  }

  lemma {:induction false} Bracketed(
      canon: string -> Option<string>, s: string, start: nat, stop: nat, items: seq<Json>, rest: string)
    requires 1 <= start <= stop < |s| && s[0] == '[' && Ws(s[1..start]) && s[stop] == ']'
    requires |s| - |rest| == stop + 1 && rest == s[stop + 1..]
    requires items != [] && ListText(canon, s[start..stop], items)
    ensures Taken(canon, s, Arr(items), rest)
  {
    hide Ws, ListText;
    ListBehind(canon, s[1..start], s[start..stop], items);
    assert s[..stop + 1][1..stop] == s[1..start] + s[start..stop];
  }

  // --- The same of objects ----------------------------------------------------

  /** What reading members gives, from the first of them to behind the brace. */
  ghost predicate PairsTaken(
      canon: string -> Option<string>, s: string, done: seq<Member>, pairs: seq<Member>, v: Json, rest: string)
  {
    && pairs != [] && v == Obj(Assigned(done, pairs))
    && |rest| < |s| && rest == s[|s| - |rest|..] && s[|s| - |rest| - 1] == '}'
    && PairsText(canon, s[..|s| - |rest| - 1], pairs)
  }

  lemma {:induction false} MembersTaken(canon: string -> Option<string>, s: string, done: seq<Member>)
    returns (pairs: seq<Member>)
    requires Members(canon, s, done).Ok?
    ensures PairsTaken(canon, s, done, pairs, Members(canon, s, done).value, Members(canon, s, done).rest)
    decreases |s|, 1
  {
    hide Value, SkipWs, PairsTaken, PairText, Members, Put, Ws;
    var pair, stop := PairInFront(canon, s, done);
    var n := LeadIs(s[stop..]);
    Behind(s, s[stop..], n);
    var c := stop + n;
    if s[c] == '}' {
      pairs := [pair];
      LastPairTaken(canon, s, done, pair, stop, c);
    } else {
      var m := LeadIs(s[c + 1..]);
      var start := c + 1 + m;
      Behind(s, s[c + 1..], m);
      var more := MembersTaken(canon, s[start..], Put(done, pair));
      pairs := [pair] + more;
      NextPairTaken(canon, s, done, pair, more, stop, c, start,
        Members(canon, s, done).value, Members(canon, s, done).rest);
    }
  }

  /** The pair at the front of the members, and how reading goes on behind it. */
  lemma {:induction false} PairInFront(canon: string -> Option<string>, s: string, done: seq<Member>)
    returns (pair: Member, stop: nat)
    requires Members(canon, s, done).Ok?
    ensures 0 < stop <= |s| && PairText(canon, s[..stop], pair)
    ensures var t := SkipWs(s[stop..]);
      && t != [] && (t[0] == '}' || t[0] == ',')
      && (t[0] == '}' ==> Members(canon, s, done) == Ok(Obj(Put(done, pair)), t[1..]))
      && (t[0] == ',' ==> Members(canon, s, done) == Members(canon, SkipWs(t[1..]), Put(done, pair)))
    decreases |s|, 0
  {
    hide Value, SkipWs, PairText, StringText, Chars, Put, Ws, ValueText, Members;
    FrontOfMembers(canon, s, done);
    var i, j, k := NameInFront(s);
    var item := Value(canon, s[k..]);
    ValueTaken(canon, s[k..]);
    stop := |s| - |item.rest|;
    pair := Member(Chars(s[1..]).value, item.value);
    Within(s, k, item.rest);
    PairOfParts(canon, s, i, j, k, stop, pair);
  }

  /** Where the name, the colon and the value behind it begin. */
  lemma {:induction false} NameInFront(s: string) returns (i: nat, j: nat, k: nat)
    requires s != [] && s[0] == '"' && Chars(s[1..]).Ok?
    requires var t := SkipWs(Chars(s[1..]).rest);
      t != "" && t[0] == ':'
    ensures i <= j < k <= |s| && StringText(s[..i], Chars(s[1..]).value)
    ensures Ws(s[i..j]) && s[j] == ':' && Ws(s[j + 1..k])
    ensures SkipWs(SkipWs(Chars(s[1..]).rest)[1..]) == s[k..]
  {
    hide SkipWs, StringText, Chars, Ws;
    TakenIsName(s);
    i := |s| - |Chars(s[1..]).rest|;
    j := LeadFrom(s, i);
    assert s[j..][0] == s[j] && s[j..][1..] == s[j + 1..];
    k := LeadFrom(s, j + 1);
  }

  lemma {:induction false} LeadFrom(s: string, i: nat) returns (j: nat)
    requires i <= |s|
    ensures i <= j <= |s| && Ws(s[i..j]) && SkipWs(s[i..]) == s[j..]
  {
    hide SkipWs, Ws;
    var n := LeadIs(s[i..]);
    Behind(s, s[i..], n);
    j := i + n;
  }

  /** Members that are read hold a name, a colon and a value, and then a brace or a comma. */
  lemma {:induction false} FrontOfMembers(canon: string -> Option<string>, s: string, done: seq<Member>)
    requires Members(canon, s, done).Ok?
    ensures s != "" && s[0] == '"' && Chars(s[1..]).Ok?
    ensures var key := Chars(s[1..]);
      var t := SkipWs(key.rest);
      && t != "" && t[0] == ':'
      && var item := Value(canon, SkipWs(t[1..]));
         && item.Ok?
         && var u := SkipWs(item.rest);
            var done1 := Put(done, Member(key.value, item.value));
            && u != "" && (u[0] == '}' || u[0] == ',')
            && (u[0] == '}' ==> Members(canon, s, done) == Ok(Obj(done1), u[1..]))
            && (u[0] == ',' ==> Members(canon, s, done) == Members(canon, SkipWs(u[1..]), done1))
  {
    hide Value, SkipWs, Chars, Put;
  }

  lemma Within(s: string, k: nat, rest: string)
    requires k <= |s| && |rest| <= |s| - k && rest == s[k..][|s| - k - |rest|..]
    ensures rest == s[|s| - |rest|..] && s[k..][..|s| - k - |rest|] == s[k..|s| - |rest|]
  {}

  /** The name in front of a pair. */
  lemma {:induction false} TakenIsName(s: string)
    requires s != [] && s[0] == '"' && Chars(s[1..]).Ok?
    ensures var key := Chars(s[1..]);
      var i := |s| - |key.rest|;
      2 <= i <= |s| && key.rest == s[i..] && StringText(s[..i], key.value)
  {
    hide Chars, CharsText, CharText;
    TakenIsChars(s[1..]);
    var key := Chars(s[1..]);
    NameText(s, |s| - |key.rest|, key.value);
  }

  lemma NameText(s: string, i: nat, t: string)
    requires 2 <= i <= |s| && s[0] == '"' && s[i - 1] == '"' && CharsText(s[1..][..i - 2], t)
    ensures StringText(s[..i], t)
  {
    hide CharsText;
    assert s[..i][1..i - 1] == s[1..][..i - 2];
  }

  lemma {:induction false} PairOfParts(
      canon: string -> Option<string>, s: string, i: nat, j: nat, k: nat, stop: nat, pair: Member)
    requires i <= j < k <= stop <= |s|
    requires StringText(s[..i], pair.key) && Ws(s[i..j]) && s[j] == ':' && Ws(s[j + 1..k])
    requires ValueText(canon, s[k..stop], pair.value)
    ensures PairText(canon, s[..stop], pair)
  {
    hide StringText, ValueText, Ws;
    var text := s[..stop];
    assert text[..i] == s[..i] && text[i..j] == s[i..j] && text[j + 1..k] == s[j + 1..k] && text[k..] == s[k..stop];
  }

  lemma {:induction false} LastPairTaken(
      canon: string -> Option<string>, s: string, done: seq<Member>, pair: Member, j: nat, k: nat)
    requires j <= k < |s| && PairText(canon, s[..j], pair) && Ws(s[j..k]) && s[k] == '}'
    ensures PairsTaken(canon, s, done, [pair], Obj(Put(done, pair)), s[k + 1..])
  {
    hide PairText, PairsText, Ws, Put;
    PairsOfOne(canon, s, j, k, [pair]);
    AssignedOne(done, pair);
  }

  lemma AssignedOne(done: seq<Member>, pair: Member)
    ensures Assigned(done, [pair]) == Put(done, pair)
  {
    assert [pair][1..] == [];
  }

  lemma {:induction false} PairsOfOne(canon: string -> Option<string>, s: string, j: nat, k: nat, pairs: seq<Member>)
    requires j <= k <= |s| && |pairs| == 1 && PairText(canon, s[..j], pairs[0]) && Ws(s[j..k])
    ensures PairsText(canon, s[..k], pairs)
  {
    hide PairText, Ws;
    var inner := s[..k];
    assert inner[..0] == "" && Ws("") by { NoWsIsWs(); }
    assert inner[0..j] == s[..j] && inner[j..k] == s[j..k];
  }

  lemma {:induction false} NextPairTaken(
      canon: string -> Option<string>, s: string, done: seq<Member>, pair: Member, more: seq<Member>,
      j: nat, k: nat, start: nat, v: Json, end: string)
    requires j <= k < start <= |s| && PairText(canon, s[..j], pair) && Ws(s[j..k]) && s[k] == ','
    requires Ws(s[k + 1..start]) && PairsTaken(canon, s[start..], Put(done, pair), more, v, end)
    ensures PairsTaken(canon, s, done, [pair] + more, v, end)
  {
    hide PairText, Ws, PairsText, Put;
    Ahead(s, start, end);
    var pairs := [pair] + more;
    assert pairs[1..] == more;
    PairsOfMore(canon, s, j, k, start, |s| - |end| - 1, pairs);
  }

  lemma {:induction false} PairsOfMore(
      canon: string -> Option<string>, s: string, j: nat, k: nat, start: nat, stop: nat, pairs: seq<Member>)
    requires j <= k < start <= stop <= |s| && |pairs| > 1
    requires PairText(canon, s[..j], pairs[0]) && Ws(s[j..k]) && s[k] == ',' && Ws(s[k + 1..start])
    requires PairsText(canon, s[start..stop], pairs[1..])
    ensures PairsText(canon, s[..stop], pairs)
  {
    hide PairText, Ws, PairsText;
    var inner := s[..stop];
    PairsBehind(canon, s[k + 1..start], s[start..stop], pairs[1..]);
    assert inner[k + 1..] == s[k + 1..start] + s[start..stop];
    assert inner[..0] == "" && Ws("") by { NoWsIsWs(); }
    assert inner[0..j] == s[..j] && inner[j..k] == s[j..k] && inner[k] == ',';
    PairsOf(canon, inner, pairs, 0, j, k);
  }

  lemma PairsOfJust(canon: string -> Option<string>, s: string, pairs: seq<Member>, i: nat, j: nat)
    requires |pairs| == 1 && i <= j <= |s|
    requires Ws(s[..i]) && PairText(canon, s[i..j], pairs[0]) && Ws(s[j..|s|])
    ensures PairsText(canon, s, pairs)
  {
    hide PairText, Ws;
  }

  lemma PairsOf(canon: string -> Option<string>, s: string, pairs: seq<Member>, i: nat, j: nat, k: nat)
    requires |pairs| > 1 && i <= j <= k < |s|
    requires Ws(s[..i]) && PairText(canon, s[i..j], pairs[0]) && Ws(s[j..k]) && s[k] == ','
    requires PairsText(canon, s[k + 1..], pairs[1..])
    ensures PairsText(canon, s, pairs)
  {
    hide PairText, Ws;
  }

  lemma {:induction false} PairsBehind(canon: string -> Option<string>, w: string, s: string, pairs: seq<Member>)
    requires pairs != [] && Ws(w) && PairsText(canon, s, pairs)
    ensures PairsText(canon, w + s, pairs)
  {
    hide PairText, Ws, PairsText;
    var i, j, k := FirstPair(canon, s, pairs);
    var all, d := w + s, |w|;
    WsJoins(w, s[..i]);
    Shifted(w, s, i, j, k);
    if |pairs| > 1 {
      PairsOf(canon, all, pairs, d + i, d + j, d + k);
    } else {
      PairsOfJust(canon, all, pairs, d + i, d + j);
    }
  }

  lemma {:induction false} ObjectTaken(canon: string -> Option<string>, s: string, n: nat, pairs: seq<Member>)
    requires s != [] && s[0] == '{' && n <= |s| - 1 && Ws(s[1..][..n]) && SkipWs(s[1..]) == s[1..][n..]
    requires var t := s[1..][n..];
      && !(t != [] && t[0] == '}') && Members(canon, t, []).Ok?
      && PairsTaken(canon, t, [], pairs, Members(canon, t, []).value, Members(canon, t, []).rest)
    ensures Value(canon, s).Ok? && Taken(canon, s, Value(canon, s).value, Value(canon, s).rest)
  {
    hide Value, SkipWs, Members, PairsText, Ws, Taken, Assigned;
    var t := s[1..][n..];
    var read := Members(canon, t, []);
    Behind(s, s[1..], n);
    Ahead(s, 1 + n, read.rest);
    Braced(canon, s, 1 + n, |s| - |read.rest| - 1, pairs, read.rest);
    assert s == ['{'] + s[1..];
    NotEmptyAtOnce(canon, s[1..], t);
  }

  lemma NotEmptyAtOnce(canon: string -> Option<string>, u: string, t: string)
    requires SkipWs(u) == t && !(t != [] && t[0] == '}')
    ensures Value(canon, ['{'] + u) == Members(canon, t, [])
  {
    hide SkipWs, Items, Members, NumberLength, Chars;
    assert (['{'] + u)[1..] == u && (['{'] + u)[0] == '{';
  }

  lemma {:induction false} Braced(
      canon: string -> Option<string>, s: string, start: nat, stop: nat, pairs: seq<Member>, rest: string)
    requires 1 <= start <= stop < |s| && s[0] == '{' && Ws(s[1..start]) && s[stop] == '}'
    requires |s| - |rest| == stop + 1 && rest == s[stop + 1..]
    requires pairs != [] && PairsText(canon, s[start..stop], pairs)
    ensures Taken(canon, s, Obj(Assigned([], pairs)), rest)
  {
    hide Ws, PairsText, Assigned;
    PairsBehind(canon, s[1..start], s[start..stop], pairs);
    assert s[..stop + 1][1..stop] == s[1..start] + s[start..stop];
  }

  // --- The parser is the grammar ----------------------------------------------

  /** The parser accepts exactly the texts of the grammar, and gives the value they spell. */
  lemma {:induction false} ParsesExactlyTheGrammar(canon: string -> Option<string>, s: string, v: Json)
    ensures Parse(canon, s) == Some(v) <==> JsonTextOf(canon, s, v)
  {
    hide Value, SkipWs, ValueText;
    if JsonTextOf(canon, s, v) {
      TextIsParsed(canon, s, v);
    }
    if Parse(canon, s) == Some(v) {
      var n := LeadIs(s);
      ValueTaken(canon, s[n..]);
      var rest := Value(canon, s[n..]).rest;
      var m := LeadIs(rest);
      var stop := |s| - |rest|;
      assert s[n..][..|s[n..]| - |rest|] == s[n..stop] && s[stop..] == rest;
      assert rest[m..] == "" && rest[..m] == rest;
    }
  }

  lemma {:induction false} TextIsParsed(canon: string -> Option<string>, s: string, v: Json)
    requires JsonTextOf(canon, s, v)
    ensures Parse(canon, s) == Some(v)
  {
    hide Value, SkipWs, ValueText, Ws;
    var i, j :| 0 <= i <= j <= |s| && Ws(s[..i]) && ValueText(canon, s[i..j], v) && Ws(s[j..]);
    var t := s[i..j];
    assert s == s[..i] + (t + s[j..]);
    ValueBegins(canon, t, v);
    WsThen(s[..i], t + s[j..]);
    NoWs(t + s[j..]);
    WsAtEnd(s[j..]);
    ValueThen(canon, t, v, s[j..]);
  }

  lemma {:induction false} WsAtEnd(w: string)
    requires Ws(w)
    ensures Stops(w) && SkipWs(w) == ""
  {
    WsThen(w, "");
    assert w + "" == w;
    WsStops(w, "");
  }

  // --- Printed strings --------------------------------------------------------

  /** A printed string is one that spells its characters, each in its own way or by the shortest escape. */
  lemma {:induction false} QuoteSpells(s: string)
    ensures StringText(Quote(s), s)
  {
    hide CharsText, Chars, Escaped, StringText;
    CharsOfQuote(s, "");
    var q := Quote(s);
    assert Escaped(s) + ['"'] + "" == q[1..];
    TakenIsName(q);
    assert q[..|q|] == q;
  }

  lemma EscapedExactly(c: char)
    ensures EscapedChar(c) == [c] <==> c != '"' && c != '\\' && c >= ' '
    ensures |EscapedChar(c)| == 6 <==> c < ' ' && c !in {'\U{8}', '\t', '\n', '\U{C}', '\r'}
    ensures |EscapedChar(c)| in {1, 2, 6} && forall x :: x in EscapedChar(c) ==> !('A' <= x <= 'F') || x == c
  {}
}
