/** Decimal spelling of integers, as `String(n)` writes a safe integer. */
module Decimal {
  import opened Collections

  const MAX_SAFE_INTEGER := 0x1F_FFFF_FFFF_FFFF

  predicate IsDigit(c: char) {
    '0' <= c <= '9'
  }

  function DigitChar(d: nat): (c: char)
    requires d < 10
    ensures IsDigit(c)
  {
    '0' + d as char
  }

  function DigitValue(c: char): (d: nat)
    requires IsDigit(c)
    ensures d < 10
  {
    (c - '0') as nat
  }

  function NatText(n: nat): (s: string)
    ensures s != [] && forall i :: 0 <= i < |s| ==> IsDigit(s[i])
    ensures n > 0 ==> s[0] != '0'
  {
    if n < 10 then [DigitChar(n)] else NatText(n / 10) + [DigitChar(n % 10)]
  }

  /** The value of a digit string. */
  function NatOf(s: string): nat
    requires forall i :: 0 <= i < |s| ==> IsDigit(s[i])
  {
    if s == [] then 0 else 10 * NatOf(s[..|s| - 1]) + DigitValue(s[|s| - 1])
  }

  lemma {:induction false} NatOfText(n: nat)
    ensures NatOf(NatText(n)) == n
  {
    if n >= 10 {
      NatOfText(n / 10);
      var s := NatText(n);
      assert s[..|s| - 1] == NatText(n / 10);
      assert 10 * (n / 10) + n % 10 == n;
    } else {
      assert NatOf([]) == 0;
      assert [DigitChar(n)][..0] == [];
    }
  }

  lemma NatTextInjective(a: nat, b: nat)
    requires NatText(a) == NatText(b)
    ensures a == b
  {
    NatOfText(a);
    NatOfText(b);
  }

  function IntText(n: int): (s: string)
    ensures s != []
  {
    if n < 0 then ['-'] + NatText(-n) else NatText(n)
  }

  predicate IsSafe(n: int) {
    -MAX_SAFE_INTEGER <= n <= MAX_SAFE_INTEGER
  }

  function Digits(s: string): Option<nat> {
    if s != [] && forall i :: 0 <= i < |s| ==> IsDigit(s[i]) then Some(NatOf(s)) else None
  }

  /** The integer a minus sign and digits denote. */
  function Reading(value: string): Option<int> {
    if value != [] && value[0] == '-' then
      var m := Digits(value[1..]);
      if m.Some? then Some(0 - m.value as int) else None
    else
      var m := Digits(value);
      if m.Some? then Some(m.value as int) else None
  }

  /** The safe integer that `value` spells canonically, if it spells one. */
  function CanonicalInteger(value: string): (r: Option<int>)
    ensures r.Some? ==> IsSafe(r.value) && IntText(r.value) == value
    ensures r.None? ==> forall n :: IsSafe(n) ==> IntText(n) != value
  {
    var n := Reading(value);
    OnlyReading(value);
    if n.Some? && IsSafe(n.value) && IntText(n.value) == value then n else None
  }

  lemma OnlyReading(value: string)
    ensures forall n :: IntText(n) == value ==> Reading(value) == Some(n)
  {
    forall n | IntText(n) == value ensures Reading(value) == Some(n) {
      if n < 0 {
        assert value[1..] == NatText(-n);
        NatOfText(-n);
      } else {
        NatOfText(n);
      }
    }
  }
}
