/** Decimal numerals as the formatter writes them. */
module Decimal {

  function Digit(d: nat): char
    requires d < 10
  {
    '0' + d as char
  }

  /** `n` in base ten, without leading zeros. */
  function Numeral(n: nat): (s: string)
    ensures s != ""
    ensures forall i :: 0 <= i < |s| ==> '0' <= s[i] <= '9'
  {
    if n < 10 then [Digit(n)] else Numeral(n / 10) + [Digit(n % 10)]
  }

  /** The number a digit string denotes. */
  function Value(s: string): nat
    requires forall i :: 0 <= i < |s| ==> '0' <= s[i] <= '9'
  {
    if s == "" then 0 else 10 * Value(s[..|s| - 1]) + (s[|s| - 1] - '0') as nat
  }

  lemma {:induction false} ValueOfNumeral(n: nat)
    ensures Value(Numeral(n)) == n
  {
    var s := Numeral(n);
    if n >= 10 {
      assert s[..|s| - 1] == Numeral(n / 10);
      ValueOfNumeral(n / 10);
    }
  }

  lemma {:induction false} NumeralInjective(m: nat, n: nat)
    requires Numeral(m) == Numeral(n)
    ensures m == n
  {
    ValueOfNumeral(m);
    ValueOfNumeral(n);
  }
}
