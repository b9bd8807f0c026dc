/** Decimal numerals, as Rust's `{}` prints a number and `parse` reads an unsigned one. */
module Decimal {
  import opened Wrappers

  predicate Digits(s: string) {
    s != "" && forall i | 0 <= i < |s| :: '0' <= s[i] <= '9'
  }

  function DecText(n: nat): (s: string)
    ensures Digits(s)
  {
    var last := [('0' as int + n % 10) as char];
    if n < 10 then last else DecText(n / 10) + last
  }

  /** The number a numeral stands for; leading zeros are allowed. */
  function Value(s: string): nat
    requires Digits(s)
  {
    var last := s[|s| - 1] as int - '0' as int;
    if |s| == 1 then last else Value(s[..|s| - 1]) * 10 + last
  }

  /** `parse` of an unsigned type below `bound`: a plus sign may come first, and too large a number is refused. */
  function ParseUnsigned(s: string, bound: nat): Option<nat> {
    var digits := if s != "" && s[0] == '+' then s[1..] else s;
    if Digits(digits) && Value(digits) < bound then Some(Value(digits)) else None
  }

  lemma {:induction false} ValueOfText(n: nat)
    ensures Value(DecText(n)) == n
  {
    if n >= 10 {
      ValueOfText(n / 10);
      var s := DecText(n);
      assert s[..|s| - 1] == DecText(n / 10);
    }
  }

  /** A number is read back from its text. */
  lemma ParseText(n: nat, bound: nat)
    requires n < bound
    ensures ParseUnsigned(DecText(n), bound) == Some(n)
  {
    ValueOfText(n);
    assert '0' <= DecText(n)[0];
  }

  lemma DecTextInjective(m: nat, n: nat)
    requires DecText(m) == DecText(n)
    ensures m == n
  {
    ValueOfText(m);
    ValueOfText(n);
  }
}
