/** Python's round() applied to a non-negative quotient: the nearest integer, ties going to the even one.
    The float quotient rounds like the exact one while the denominator stays below 2^45. */
module HalfEven {
  function RoundDiv(num: nat, den: nat): (r: nat)
    requires den > 0
    ensures den * (2 * r) <= 2 * num + den
    ensures 2 * num <= den * (2 * r) + den
    ensures 2 * num == den * (2 * r) + den || den * (2 * r) == 2 * num + den ==> r % 2 == 0
  {
    var q, rest := num / den, num % den;
    assert num == den * q + rest;
    assert den * (2 * q) == 2 * (den * q);
    assert den * (2 * (q + 1)) == 2 * (den * q) + 2 * den;
    if 2 * rest < den || (2 * rest == den && q % 2 == 0) then q else q + 1
  }

  lemma Scaled(k: nat, a: nat, b: nat)
    requires a <= b
    ensures k * a <= k * b
  {
  }

  /** Rounding keeps the order of the numerators, so a growing share never shows a smaller percentage. */
  lemma RoundDivMonotone(a: nat, b: nat, den: nat)
    requires den > 0 && a <= b
    ensures RoundDiv(a, den) <= RoundDiv(b, den)
  {
    var x, y := RoundDiv(a, den), RoundDiv(b, den);
    assert den * (2 * y + 2) == den * (2 * y) + 2 * den;
    if x > y {
      // The two bounds then leave room only for a == b, where x == y.
      Scaled(den, 2 * y + 2, 2 * x);
    }
  }

  /** A share of the whole reads 100 exactly when at most half a percent of the weight is missing. */
  lemma ReadsHundred(part: nat, whole: nat)
    requires whole > 0 && part <= whole
    ensures RoundDiv(part * 100, whole) <= 100
    ensures RoundDiv(part * 100, whole) == 100 <==> 200 * (whole - part) <= whole
  {
    var r := RoundDiv(part * 100, whole);
    if r >= 101 {
      Scaled(whole, 202, 2 * r);
    } else if r <= 99 {
      // A tie at 99.5 would have gone to the even 100.
      Scaled(whole, 2 * r, 198);
      if r < 99 { Scaled(whole, 2 * r, 196); }
    }
  }
}
