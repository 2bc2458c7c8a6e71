/** Decimal text and the numbers it stands for. */
module Decimal {

  predicate Digit(c: char) {
    '0' <= c <= '9'
  }

  function Val(c: char): nat
    requires Digit(c)
  {
    c as nat - '0' as nat
  }

  predicate AllDigits(s: string) {
    forall i :: 0 <= i < |s| ==> Digit(s[i])
  }

  /** Decimal value, most significant digit first. */
  function NumberOf(s: string): nat
    requires AllDigits(s)
  {
    if s == "" then 0 else 10 * NumberOf(s[..|s| - 1]) + Val(s[|s| - 1])
  }

  /** Without leading zeros. */
  predicate Normal(s: string) {
    s != "" && AllDigits(s) && (s[0] != '0' || s == "0")
  }

  /** The text of a number, as Tcl writes an integer. */
  function Numeral(n: nat): (s: string)
    ensures AllDigits(s) && s != ""
  {
    if n < 10 then [('0' as nat + n) as char] else Numeral(n / 10) + [('0' as nat + n % 10) as char]
  }

  lemma NotZeroNumeral(n: nat)
    requires n > 0
    ensures Numeral(n) != "0"
  {
    if n >= 10 { assert |Numeral(n)| > 1; }
  }

  lemma {:induction false} NumeralReadsBack(n: nat)
    ensures Normal(Numeral(n)) && NumberOf(Numeral(n)) == n
  {
    var s := Numeral(n);
    if n >= 10 {
      NumeralReadsBack(n / 10);
      assert s[..|s| - 1] == Numeral(n / 10);
      assert s[0] == Numeral(n / 10)[0];
      NotZeroNumeral(n / 10);
    }
  }

  /** Different numbers have different texts. */
  lemma NumeralInjective(m: nat, n: nat)
    requires Numeral(m) == Numeral(n)
    ensures m == n
  {
    NumeralReadsBack(m);
    NumeralReadsBack(n);
  }
}
