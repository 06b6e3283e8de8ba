/** Decimal numerals: the byte counts the frames declare. */
module Decimal {
  import opened Prelude

  predicate IsDigit(c: char) {
    '0' <= c <= '9'
  }

  function Digit(d: nat): (c: char)
    requires d < 10
    ensures IsDigit(c)
  {
    ('0' as int + d) as char
  }

  function Value(c: char): nat
    requires IsDigit(c)
  {
    c as int - '0' as int
  }

  predicate AllDigits(s: string) {
    forall i :: 0 <= i < |s| ==> IsDigit(s[i])
  }

  function Print(n: nat): (s: string)
    ensures |s| > 0 && AllDigits(s)
  {
    if n < 10 then [Digit(n)] else Print(n / 10) + [Digit(n % 10)]
  }

  function Parse(s: string): nat
    requires AllDigits(s)
  {
    if |s| == 0 then 0 else 10 * Parse(s[..|s| - 1]) + Value(Last(s))
  }

  lemma {:induction false} ParsePrint(n: nat)
    ensures Parse(Print(n)) == n
  {
    var s := Print(n);
    if n < 10 {
      assert s[..|s| - 1] == [];
    } else {
      ParsePrint(n / 10);
      assert s[..|s| - 1] == Print(n / 10);
    }
  }
}
