/** Which names may become one segment of a path, and which name a table. */
module PathNames {
  const MAX_PATH_SEGMENT_BYTES := 255

  function Utf8Length(c: char): nat {
    if c < '\U{80}' then 1 else if c < '\U{800}' then 2 else if c as int < 0x1_0000 then 3 else 4
  }

  function ByteLength(s: string): (n: nat)
    ensures n >= |s|
  {
    if s == [] then 0 else Utf8Length(s[0]) + ByteLength(s[1..])
  }

  predicate IsControl(c: char) {
    c < ' ' || '\U{7F}' <= c <= '\U{9F}'
  }

  predicate AllDots(s: string) {
    s != [] && forall i :: 0 <= i < |s| ==> s[i] == '.'
  }

  /** A name that is exactly one path segment on every file system. */
  predicate SafeComponent(s: string) {
    && s != [] && !AllDots(s)
    && (forall i :: 0 <= i < |s| ==> s[i] != '/' && s[i] != '\\' && !IsControl(s[i]))
    && ByteLength(s) <= MAX_PATH_SEGMENT_BYTES
  }

  /** In printable ASCII: up to 255 characters, not all of them dots, and no slash of either kind. */
  lemma {:induction false} SafeInAscii(s: string)
    requires forall i :: 0 <= i < |s| ==> ' ' <= s[i] <= '~'
    ensures SafeComponent(s) <==> |s| <= 255 && '/' !in s && '\\' !in s && exists i :: 0 <= i < |s| && s[i] != '.'
  {
    AsciiBytes(s);
  }

  lemma {:induction false} AsciiBytes(s: string)
    requires forall i :: 0 <= i < |s| ==> ' ' <= s[i] <= '~'
    ensures ByteLength(s) == |s|
  {
    if s != [] { AsciiBytes(s[1..]); }
  }

  /** Beyond it, a control character is never safe, and any other counts by its bytes. */
  lemma {:induction false} SafeBeyondAscii(before: string, c: char, after: string)
    requires c > '~'
    ensures var s := before + [c] + after;
      && (SafeComponent(s) ==> c >= '\U{A0}')
      && var bytes := if c < '\U{80}' then 1 else if c < '\U{800}' then 2 else if c < '\U{10000}' then 3 else 4;
         ByteLength(s) == ByteLength(before) + bytes + ByteLength(after)
  {
    assert (before + [c] + after)[|before|] == c;
    BytesAdd(before + [c], after);
    BytesAdd(before, [c]);
  }

  lemma {:induction false} BytesAdd(s: string, t: string)
    ensures ByteLength(s + t) == ByteLength(s) + ByteLength(t)
  {
    if s == [] {
      assert s + t == t;
    } else {
      assert (s + t)[1..] == s[1..] + t;
      BytesAdd(s[1..], t);
    }
  }

  predicate IsWordChar(c: char) {
    'a' <= c <= 'z' || 'A' <= c <= 'Z' || '0' <= c <= '9' || c == '_'
  }

  /** A name the data model accepts for a table. */
  predicate IsTableName(s: string) {
    s != [] && forall i :: 0 <= i < |s| ==> IsWordChar(s[i])
  }

  /** The text before the first occurrence of `c`, or all of it. */
  function Before(s: string, c: char): (r: string)
    ensures r <= s && c !in r
    ensures |r| < |s| ==> s[|r|] == c
  {
    if s == [] || s[0] == c then [] else [s[0]] + Before(s[1..], c)
  }
}
