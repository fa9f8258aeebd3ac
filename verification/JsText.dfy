/** The white space of JavaScript strings, as `trim` and `\s` see it, and lower case over ASCII. */
module JsText {

  predicate IsSpace(c: char) {
    || '\t' <= c <= '\r' || c == ' ' || c == '\U{A0}' || c == '\U{1680}'
    || '\U{2000}' <= c <= '\U{200A}' || c == '\U{2028}' || c == '\U{2029}'
    || c == '\U{202F}' || c == '\U{205F}' || c == '\U{3000}' || c == '\U{FEFF}'
  }

  function TrimLeft(s: string): string {
    if s != [] && IsSpace(s[0]) then TrimLeft(s[1..]) else s
  }

  function TrimRight(s: string): string {
    if s != [] && IsSpace(s[|s| - 1]) then TrimRight(s[..|s| - 1]) else s
  }

  function LowerChar(c: char): char {
    if 'A' <= c <= 'Z' then c + 32 as char else c
  }

  function Lower(s: string): string {
    if s == [] then [] else [LowerChar(s[0])] + Lower(s[1..])
  }

  /** The text without a leading byte-order mark. */
  function StripBOM(text: string): string {
    if text != [] && text[0] == '\U{FEFF}' then text[1..] else text
  }

  predicate Blank(s: string) {
    forall i :: 0 <= i < |s| ==> IsSpace(s[i])
  }

  lemma BlankTrimsToNothing(s: string)
    ensures Blank(s) <==> TrimRight(TrimLeft(s)) == ""
  {
    if s != [] {
      if IsSpace(s[0]) {
        assert s == [s[0]] + s[1..];
        BlankTrimsToNothing(s[1..]);
      } else {
        KeepsFirst(s);
      }
    }
  }

  lemma KeepsFirst(s: string)
    requires s != [] && !IsSpace(s[0])
    ensures TrimRight(s) != []
  {}
  /** A text that neither begins nor ends with white space. */
  predicate IsTrimmed(s: string) {
    s == [] || (!IsSpace(s[0]) && !IsSpace(s[|s| - 1]))
  }

  /** White space around a text is what trimming takes, all of it and no more. */
  lemma {:induction false} TrimSpells(before: string, s: string, after: string)
    requires Blank(before) && Blank(after) && IsTrimmed(s)
    ensures TrimRight(TrimLeft(before + s + after)) == s
  {
    TrimLeftSpells(before, s + after);
    assert before + s + after == before + (s + after);
    if s == [] {
      assert s + after == after;
      BlankTrimsToNothing(after);
    } else {
      TrimRightSpells(s, after);
      assert TrimLeft(s + after) == s + after;
    }
  }

  lemma {:induction false} TrimLeftSpells(before: string, s: string)
    requires Blank(before)
    ensures TrimLeft(before + s) == TrimLeft(s)
  {
    if before == [] {
      assert before + s == s;
    } else {
      assert (before + s)[1..] == before[1..] + s;
      TrimLeftSpells(before[1..], s);
    }
  }

  lemma {:induction false} TrimRightSpells(s: string, after: string)
    requires Blank(after) && s != [] && !IsSpace(s[|s| - 1])
    ensures TrimRight(s + after) == s
  {
    if after == [] {
      assert s + after == s;
    } else {
      var n := |after| - 1;
      assert (s + after)[..|s| + n] == s + after[..n];
      TrimRightSpells(s, after[..n]);
    }
  }

  /** Every text is a trimmed one between white space. */
  lemma {:induction false} TrimParts(s: string) returns (before: string, inner: string, after: string)
    ensures s == before + inner + after && Blank(before) && Blank(after) && IsTrimmed(inner)
    ensures inner == TrimRight(TrimLeft(s))
  {
    hide TrimLeft, TrimRight, IsSpace;
    before, inner, after := SpaceAround(s);
    TrimSpells(before, inner, after);
  }

  lemma {:induction false} SpaceAround(s: string) returns (before: string, inner: string, after: string)
    ensures s == before + inner + after && Blank(before) && Blank(after) && IsTrimmed(inner)
  {
    hide IsSpace;
    if s != [] && IsSpace(s[0]) {
      var b;
      b, inner, after := SpaceAround(s[1..]);
      before := [s[0]] + b;
      assert s == [s[0]] + (b + inner + after);
    } else if s != [] && IsSpace(s[|s| - 1]) {
      var a;
      before, inner, a := SpaceAround(s[..|s| - 1]);
      after := a + [s[|s| - 1]];
      assert s == before + inner + a + [s[|s| - 1]];
    } else {
      before, inner, after := [], s, [];
    }
  }

  /** The same letters, capitals of the ASCII alphabet aside. */
  predicate SameLetters(a: string, b: string) {
    && |a| == |b|
    && forall i :: 0 <= i < |a| ==>
         || a[i] == b[i]
         || ('A' <= a[i] <= 'Z' && b[i] as int == a[i] as int - 'A' as int + 'a' as int)
         || ('A' <= b[i] <= 'Z' && a[i] as int == b[i] as int - 'A' as int + 'a' as int)
  }

  predicate HasCapital(s: string) {
    exists i :: 0 <= i < |s| && 'A' <= s[i] <= 'Z'
  }

  /** Lower case is the one spelling of the letters without a capital. */
  lemma {:induction false} LowerSpells(s: string, lower: string)
    ensures Lower(s) == lower <==> SameLetters(s, lower) && !HasCapital(lower)
  {
    LowerAt(s);
    if SameLetters(s, lower) && !HasCapital(lower) {
      assert forall i :: 0 <= i < |s| ==> Lower(s)[i] == lower[i];
    }
  }

  lemma {:induction false} LowerAt(s: string)
    ensures |Lower(s)| == |s| && forall i :: 0 <= i < |s| ==> Lower(s)[i] == LowerChar(s[i])
  {
    if s != [] {
      LowerAt(s[1..]);
    }
  }
}
