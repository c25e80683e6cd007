/** Decimal numerals without leading zeros. */
module Numerals {
  import opened Luhn

  function Numeral(d: Digit): char { ('0' as int + d) as char }

  function Decimal(n: nat): (s: string)
    ensures s != "" && AllDigits(s) && (|s| == 1 <==> n < 10)
  {
    if n < 10 then [Numeral(n)] else Decimal(n / 10) + [Numeral(n % 10)]
  }

  function Number(s: string): nat
    requires AllDigits(s)
  {
    if s == "" then 0 else 10 * Number(s[..|s| - 1]) + DigitOf(s[|s| - 1])
  }

  predicate NoLeadingZero(s: string) { s != "" && (|s| > 1 ==> s[0] != '0') }

  lemma {:induction false} NumberOfDecimal(n: nat)
    ensures Number(Decimal(n)) == n && NoLeadingZero(Decimal(n)) && (n > 0 ==> Decimal(n)[0] != '0')
  {
    if n >= 10 {
      NumberOfDecimal(n / 10);
      var s := Decimal(n);
      assert s[..|s| - 1] == Decimal(n / 10);
    }
  }

  lemma {:induction false} DecimalOfNumber(s: string)
    requires AllDigits(s) && NoLeadingZero(s)
    ensures Decimal(Number(s)) == s && (s[0] != '0' ==> Number(s) > 0)
  {
    var n := |s| - 1;
    assert s == s[..n] + [s[n]];
    if n > 0 {
      DecimalOfNumber(s[..n]);
      assert Number(s) / 10 == Number(s[..n]) && Number(s) % 10 == DigitOf(s[n]);
    }
  }

  lemma DecimalIsInjective(a: nat, b: nat)
    requires Decimal(a) == Decimal(b)
    ensures a == b
  {
    NumberOfDecimal(a);
    NumberOfDecimal(b);
  }
}
