/** String helpers the components rely on: decimal rendering of a number in a
    template literal, and substring search (`String.prototype.includes`). */
module Text {

  function DigitChar(d: nat): (c: char)
    requires d < 10
    ensures '0' <= c <= '9'
    ensures c as int - '0' as int == d
  {
    ('0' as int + d) as char
  }

  /** `${n}` for a non-negative integer: its decimal digits, no leading zero. */
  function NatToString(n: nat): (r: string)
    ensures 1 <= |r|
    ensures forall k :: 0 <= k < |r| ==> '0' <= r[k] <= '9'
    ensures |r| == 1 <==> n < 10
    ensures r[|r| - 1] as int - '0' as int == n % 10
    decreases n
  {
    if n < 10 then [DigitChar(n)] else NatToString(n / 10) + [DigitChar(n % 10)]
  }

  /** Different numbers render differently. */
  lemma {:induction false} NatToStringInjective(a: nat, b: nat)
    requires NatToString(a) == NatToString(b)
    ensures a == b
    decreases a
  {
    if a >= 10 && b >= 10 {
      var ra := NatToString(a);
      assert ra[..|ra| - 1] == NatToString(a / 10);
      assert NatToString(b)[..|ra| - 1] == NatToString(b / 10);
      NatToStringInjective(a / 10, b / 10);
    }
  }

  /** `sub` occurs in `s` starting at `i`. */
  predicate OccursAt(s: string, sub: string, i: nat) {
    i + |sub| <= |s| && s[i..i + |sub|] == sub
  }

  /** `s.includes(sub)`. */
  predicate Includes(s: string, sub: string) {
    exists i: nat :: i <= |s| && OccursAt(s, sub, i)
  }

  /** Searches the start positions from `from` on. */
  function IncludesFrom(s: string, sub: string, from: nat): (r: bool)
    ensures r <==> exists i: nat :: from <= i <= |s| && OccursAt(s, sub, i)
    decreases |s| + 1 - from
  {
    if from + |sub| > |s| then
      assert forall i: nat :: from <= i ==> !OccursAt(s, sub, i);
      false
    else if s[from..from + |sub|] == sub then
      assert OccursAt(s, sub, from);
      true
    else
      var r := IncludesFrom(s, sub, from + 1);
      assert forall i: nat :: from <= i && OccursAt(s, sub, i) ==> from + 1 <= i;
      r
  }

  /** The executable search agrees with `Includes`. */
  function IncludesSearch(s: string, sub: string): (r: bool)
    ensures r <==> Includes(s, sub)
  {
    IncludesFrom(s, sub, 0)
  }
}
