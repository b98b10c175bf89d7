/** Numbers as decimal text, and back. */
module Decimals {
  import opened Wrappers

  function Digit(d: int): char
    requires 0 <= d < 10
  {
    (d + ('0' as int)) as char
  }

  predicate IsDigit(c: char) {
    '0' <= c <= '9'
  }

  function Decimal(n: nat): (s: string)
    ensures s != ""
  {
    if n < 10 then [Digit(n)] else Decimal(n / 10) + [Digit(n % 10)]
  }

  /** The value of a string of digits. */
  function Value(s: string): Option<int> {
    if s == "" then Some(0)
    else
      var init := Value(s[..|s| - 1]);
      if init.None? || !IsDigit(s[|s| - 1]) then None else Some(init.value * 10 + (s[|s| - 1] as int) - ('0' as int))
  }

  lemma {:induction false} ValueOfDecimal(n: nat)
    ensures Value(Decimal(n)) == Some(n)
  {
    if n < 10 {
      assert Decimal(n)[..0] == "";
    } else {
      ValueOfDecimal(n / 10);
      assert Decimal(n)[..|Decimal(n)| - 1] == Decimal(n / 10);
    }
  }

  lemma {:induction false} DecimalIsDigits(n: nat)
    ensures forall i :: 0 <= i < |Decimal(n)| ==> IsDigit(Decimal(n)[i])
  {
    if n >= 10 {
      DecimalIsDigits(n / 10);
    }
  }
}
