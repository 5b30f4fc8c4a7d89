/** The letters that stand for type variables. */
module Lettering {
  import opened Decimal

  /** `0 -> a`, `25 -> z`, `26 -> a1`, … */
  function Letters(k: nat): string {
    ['a' + (k % 26) as char] + if k / 26 == 0 then "" else Numeral(k / 26)
  }

  /** The first 26 names are the letters in order; every 26 more repeat them with a count behind. */
  lemma {:induction false} LettersInOrder(k: nat)
    ensures k < 26 ==> Letters(k) == ["abcdefghijklmnopqrstuvwxyz"[k]]
    ensures k >= 26 ==> Letters(k) == Letters(k % 26) + Numeral(k / 26)
  {
    var abc := "abcdefghijklmnopqrstuvwxyz";
    assert |abc| == 26 && forall i :: 0 <= i < 26 ==> abc[i] == 'a' + i as char;
  }

  lemma {:induction false} LettersInjective(j: nat, k: nat)
    requires Letters(j) == Letters(k)
    ensures j == k
  {
    var s, t := Letters(j), Letters(k);
    assert s[0] == 'a' + (j % 26) as char && t[0] == 'a' + (k % 26) as char;
    assert j % 26 == k % 26;
    assert s[1..] == (if j / 26 == 0 then "" else Numeral(j / 26));
    assert t[1..] == (if k / 26 == 0 then "" else Numeral(k / 26));
    if j / 26 != 0 { NumeralInjective(j / 26, k / 26); }
  }
}
