/** Decimal numerals, as an f-string renders a non-negative integer. */
module Numerals {
  function Digit(d: nat): char
    requires d < 10
  {
    "0123456789"[d]
  }

  function Decimal(n: nat): (s: string)
    ensures |s| > 0
    ensures forall c <- s :: '0' <= c <= '9'
  {
    if n < 10 then [Digit(n)] else Decimal(n / 10) + [Digit(n % 10)]
  }

  lemma {:induction false} DecimalInjective(a: nat, b: nat)
    requires Decimal(a) == Decimal(b)
    ensures a == b
  {
    var s, t := Decimal(a), Decimal(b);
    assert s[|s| - 1] == t[|t| - 1] && s[..|s| - 1] == t[..|t| - 1];
    assert s[|s| - 1] == Digit(a % 10) && t[|t| - 1] == Digit(b % 10);
    assert a % 10 == b % 10;
    if a >= 10 {
      assert s[..|s| - 1] == Decimal(a / 10);
      if b >= 10 {
        assert t[..|t| - 1] == Decimal(b / 10);
        DecimalInjective(a / 10, b / 10);
      }
    }
  }

  /** The number a run of digits stands for, by its last digit. */
  function ValueOf(s: string): int {
    if s == [] then 0 else 10 * ValueOf(s[..|s| - 1]) + (s[|s| - 1] as int - '0' as int)
  }

  /** A numeral stands for its number and has no leading zero. */
  lemma {:induction false} DecimalHasValue(n: nat)
    ensures ValueOf(Decimal(n)) == n && (n > 0 ==> Decimal(n)[0] != '0')
  {
    var s := Decimal(n);
    assert s[|s| - 1] as int - '0' as int == n % 10;
    if n >= 10 {
      DecimalHasValue(n / 10);
      assert s[..|s| - 1] == Decimal(n / 10);
    } else {
      assert s[..|s| - 1] == [];
    }
  }
}
