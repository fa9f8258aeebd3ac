/**
  JSON text: the values, a parser for the grammar of section 2 of RFC 8259, and the
  minified and two-space printers. A parsed value prints to text that parses back
  to it, in either form.
 */
module JsonText {
  import opened Collections
  import opened Decimal

  datatype Member = Member(key: string, value: Json)

  /**
    A value. A number is held as the text it prints as; Overflow is one past the
    range of a double, which parses as an infinity and prints as null. An object's
    members are in the order they are enumerated.
   */
  datatype Json =
    | Null
    | Bool(b: bool)
    | Num(text: string)
    | Overflow
    | Str(s: string)
    | Arr(items: seq<Json>)
    | Obj(members: seq<Member>)

  // --- Characters -------------------------------------------------------------

  predicate IsWs(c: char) {
    c == ' ' || c == '\t' || c == '\n' || c == '\r'
  }

  function SkipWs(s: string): (r: string)
    ensures |r| <= |s|
    ensures r != [] ==> !IsWs(r[0])
  {
    if s != [] && IsWs(s[0]) then SkipWs(s[1..]) else s
  }

  function HexDigit(c: char): (r: Option<nat>)
    ensures r.Some? ==> r.value < 0x10
  {
    if '0' <= c <= '9' then Some((c - '0') as nat)
    else if 'a' <= c <= 'f' then Some((c - 'a') as nat + 10)
    else if 'A' <= c <= 'F' then Some((c - 'A') as nat + 10)
    else None
  }

  function HexChar(d: nat): char
    requires d < 16
  {
    if d < 10 then '0' + d as char else 'a' + (d - 10) as char
  }

  function Hex2(a: char, b: char): (r: Option<nat>)
    ensures r.Some? ==> r.value < 0x100
  {
    var high, low := HexDigit(a), HexDigit(b);
    if high.Some? && low.Some? then Some(0x10 * high.value + low.value) else None
  }

  /** The value of four hexadecimal digits at the front. */
  function Hex4(s: string): (r: Option<nat>)
    ensures r.Some? ==> |s| >= 4 && r.value < 0x1_0000
  {
    var high := if |s| < 4 then None else Hex2(s[0], s[1]);
    if high.None? then None
    else
      var low := Hex2(s[2], s[3]);
      if low.Some? then Some(0x100 * high.value + low.value) else None
  }

  // --- Numbers ----------------------------------------------------------------

  function DigitRun(s: string): (n: nat)
    ensures n <= |s|
    ensures forall i :: 0 <= i < n ==> IsDigit(s[i])
    ensures n < |s| ==> !IsDigit(s[n])
  {
    if s != [] && IsDigit(s[0]) then 1 + DigitRun(s[1..]) else 0
  }

  /** The length of the integer part at the front: zero, or digits not led by zero. */
  function IntLength(s: string): (r: Option<nat>)
    ensures r.Some? ==> 0 < r.value <= |s|
  {
    if s == [] || !IsDigit(s[0]) then None
    else if s[0] == '0' then Some(1)
    else Some(DigitRun(s))
  }

  /** The length of an optional fraction at the front; none where a point has no digits. */
  function FracLength(s: string): (r: Option<nat>)
    ensures r.Some? ==> r.value <= |s|
  {
    if s == [] || s[0] != '.' then Some(0)
    else if DigitRun(s[1..]) == 0 then None
    else Some(1 + DigitRun(s[1..]))
  }

  /** The length of an optional sign at the front. */
  function SignLength(s: string): (n: nat)
    ensures n <= |s|
  {
    if s != [] && (s[0] == '+' || s[0] == '-') then 1 else 0
  }

  /** The length of an optional exponent at the front; none where its letter has no digits. */
  function ExpLength(s: string): (r: Option<nat>)
    ensures r.Some? ==> r.value <= |s|
  {
    if s == [] || (s[0] != 'e' && s[0] != 'E') then Some(0)
    else
      var sign := SignLength(s[1..]);
      var digits := DigitRun(s[1..][sign..]);
      if digits == 0 then None else Some(1 + sign + digits)
  }

  /** The length of the number at the front of the text. */
  function NumberLength(s: string): (r: Option<nat>)
    ensures r.Some? ==> 0 < r.value <= |s|
  {
    var minus := if s != [] && s[0] == '-' then 1 else 0;
    var whole := IntLength(s[minus..]);
    if whole.None? then None
    else
      var p := minus + whole.value;
      var frac := FracLength(s[p..]);
      if frac.None? then None
      else
        var q := p + frac.value;
        var exp := ExpLength(s[q..]);
        if exp.None? then None else Some(q + exp.value)
  }

  predicate IsNumber(s: string) {
    NumberLength(s) == Some(|s|)
  }

  /**
    How a number literal reads and prints: the text of its double, none past the
    range. What a double prints as reads back as that double.
   */
  ghost predicate Doubles(canon: string -> Option<string>) {
    forall s :: canon(s).Some? ==> IsNumber(canon(s).value) && canon(canon(s).value) == canon(s)
  }

  // --- Parsing ----------------------------------------------------------------

  datatype Parsed<T> = Bad | Ok(value: T, rest: string)

  function Unescaped(c: char): Option<char> {
    match c
    case '"' => Some('"')
    case '\\' => Some('\\')
    case '/' => Some('/')
    case 'b' => Some('\U{8}')
    case 'f' => Some('\U{C}')
    case 'n' => Some('\n')
    case 'r' => Some('\r')
    case 't' => Some('\t')
    case _ => None
  }

  /** The character a `\u` escape names; two escapes make one character past the first plane. */
  function UnicodeEscape(s: string): (r: Parsed<char>)
    ensures r.Ok? ==> |r.rest| < |s|
  {
    var first := Hex4(s);
    if first.None? then Bad
    else if first.value < 0xD800 || 0xE000 <= first.value then Ok(first.value as char, s[4..])
    else if first.value < 0xDC00 && "\\u" <= s[4..] then
      var second := Hex4(s[6..]);
      if second.Some? && 0xDC00 <= second.value < 0xE000
      then Ok((0x1_0000 + 0x400 * (first.value - 0xD800) + (second.value - 0xDC00)) as char, s[10..])
      else Bad
    else Bad
  }

  /** The characters of a string literal, from after its opening quote. */
  function Chars(s: string): (r: Parsed<string>)
    ensures r.Ok? ==> |r.rest| < |s|
  {
    if s == [] || s[0] < ' ' then Bad
    else if s[0] == '"' then Ok("", s[1..])
    else if s[0] != '\\' then Prepend(s[0], Chars(s[1..]))
    else if |s| < 2 then Bad
    else if s[1] == 'u' then
      var c := UnicodeEscape(s[2..]);
      if c.Bad? then Bad else Prepend(c.value, Chars(c.rest))
    else
      var c := Unescaped(s[1]);
      if c.None? then Bad else Prepend(c.value, Chars(s[2..]))
  }

  function Prepend(c: char, r: Parsed<string>): Parsed<string> {
    if r.Bad? then Bad else Ok([c] + r.value, r.rest)
  }

  const MAX_INDEX := 0xFFFF_FFFE

  /** The array index a key spells, which decides where it is enumerated. */
  function IndexOfKey(key: string): Option<int> {
    var n := CanonicalInteger(key);
    if n.Some? && 0 <= n.value <= MAX_INDEX then n else None
  }

  /** Whether a member with key `a` is enumerated before one with a new key `b`. */
  predicate Before(a: string, b: string) {
    var i, j := IndexOfKey(a), IndexOfKey(b);
    if j.None? then true else i.Some? && i.value < j.value
  }

  /** Assigning a property: a known key keeps its place, a new one goes to its own. */
  function Put(members: seq<Member>, m: Member): seq<Member> {
    if members == [] then [m]
    else
      var last := members[|members| - 1];
      if last.key == m.key then members[..|members| - 1] + [m]
      else if exists i :: 0 <= i < |members| && members[i].key == m.key then
        Put(members[..|members| - 1], m) + [last]
      else if Before(last.key, m.key) then members + [m]
      else Put(members[..|members| - 1], m) + [last]
  }

  function Value(canon: string -> Option<string>, s: string): (r: Parsed<Json>)
    ensures r.Ok? ==> |r.rest| < |s|
    decreases |s|, 0
  {
    if s == [] then Bad
    else if "null" <= s then Ok(Null, s[4..])
    else if "true" <= s then Ok(Bool(true), s[4..])
    else if "false" <= s then Ok(Bool(false), s[5..])
    else if s[0] == '"' then
      var text := Chars(s[1..]);
      if text.Bad? then Bad else Ok(Str(text.value), text.rest)
    else if s[0] == '[' then
      var t := SkipWs(s[1..]);
      if t != [] && t[0] == ']' then Ok(Arr([]), t[1..]) else Items(canon, t, [])
    else if s[0] == '{' then
      var t := SkipWs(s[1..]);
      if t != [] && t[0] == '}' then Ok(Obj([]), t[1..]) else Members(canon, t, [])
    else
      var n := NumberLength(s);
      if n.None? then Bad
      else
        var printed := canon(s[..n.value]);
        Ok(if printed.Some? then Num(printed.value) else Overflow, s[n.value..])
  }

  function Items(canon: string -> Option<string>, s: string, done: seq<Json>): (r: Parsed<Json>)
    ensures r.Ok? ==> |r.rest| < |s|
    decreases |s|, 1
  {
    var item := Value(canon, s);
    if item.Bad? then Bad
    else
      var t := SkipWs(item.rest);
      if t == [] then Bad
      else if t[0] == ']' then Ok(Arr(done + [item.value]), t[1..])
      else if t[0] == ',' then Items(canon, SkipWs(t[1..]), done + [item.value])
      else Bad
  }

  function Members(canon: string -> Option<string>, s: string, done: seq<Member>): (r: Parsed<Json>)
    ensures r.Ok? ==> |r.rest| < |s|
    decreases |s|, 1
  {
    if s == [] || s[0] != '"' then Bad
    else
      var key := Chars(s[1..]);
      if key.Bad? then Bad
      else
        var t := SkipWs(key.rest);
        if t == [] || t[0] != ':' then Bad
        else
          var item := Value(canon, SkipWs(t[1..]));
          if item.Bad? then Bad
          else
            var u := SkipWs(item.rest);
            var done1 := Put(done, Member(key.value, item.value));
            if u == [] then Bad
            else if u[0] == '}' then Ok(Obj(done1), u[1..])
            else if u[0] == ',' then Members(canon, SkipWs(u[1..]), done1)
            else Bad
  }

  /** `JSON.parse`: none where it throws. */
  function Parse(canon: string -> Option<string>, s: string): Option<Json> {
    var v := Value(canon, SkipWs(s));
    if v.Ok? && SkipWs(v.rest) == [] then Some(v.value) else None
  }

  // --- Printing ---------------------------------------------------------------

  function EscapedChar(c: char): string {
    if c == '"' then "\\\""
    else if c == '\\' then "\\\\"
    else if c == '\U{8}' then "\\b"
    else if c == '\t' then "\\t"
    else if c == '\n' then "\\n"
    else if c == '\U{C}' then "\\f"
    else if c == '\r' then "\\r"
    else if c < ' ' then "\\u00" + [HexChar(c as int / 16), HexChar(c as int % 16)]
    else [c]
  }

  function Escaped(s: string): string {
    if s == [] then "" else EscapedChar(s[0]) + Escaped(s[1..])
  }

  function Quote(s: string): string {
    ['"'] + Escaped(s) + ['"']
  }

  /** One line, or broken and indented by two spaces a level. */
  datatype Style = Minified | TwoSpace

  function Spaces(n: nat): (r: string)
    ensures forall c :: c in r ==> IsWs(c)
  {
    seq(n, _ => ' ')
  }

  function Break(style: Style, depth: nat): (r: string)
    ensures forall c :: c in r ==> IsWs(c)
  {
    if style.Minified? then "" else ['\n'] + Spaces(2 * depth)
  }

  function Colon(style: Style): string {
    if style.Minified? then ":" else ": "
  }

  function Print(v: Json, style: Style, depth: nat): (r: string)
    decreases v
  {
    match v
    case Null => "null"
    case Bool(b) => if b then "true" else "false"
    case Num(text) => text
    case Overflow => "null"
    case Str(s) => Quote(s)
    case Arr(items) => if items == [] then "[]" else "[" + PrintItems(items, style, depth)
    case Obj(members) => if members == [] then "{}" else "{" + PrintMembers(members, style, depth)
  }

  /** The items from here to the closing bracket, each on its own line where the style breaks lines. */
  function PrintItems(items: seq<Json>, style: Style, depth: nat): string
    requires items != []
    decreases items
  {
    Break(style, depth + 1) + Print(items[0], style, depth + 1)
    + (if |items| == 1 then Break(style, depth) + "]" else "," + PrintItems(items[1..], style, depth))
  }

  function PrintMembers(members: seq<Member>, style: Style, depth: nat): string
    requires members != []
    decreases members
  {
    Break(style, depth + 1) + Quote(members[0].key) + Colon(style) + Print(members[0].value, style, depth + 1)
    + (if |members| == 1 then Break(style, depth) + "}" else "," + PrintMembers(members[1..], style, depth))
  }

  /** `JSON.stringify(v)`. */
  function Min(v: Json): string {
    Print(v, Minified, 0)
  }

  /** `JSON.stringify(v, null, 2)`. */
  function Pretty(v: Json): string {
    Print(v, TwoSpace, 0)
  }
}
