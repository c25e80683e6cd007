/** The Luhn checksum (Annex B of ISO/IEC 7812-1) as the acquirer and the store compute it. */
module Luhn {
  type Digit = d: int | 0 <= d <= 9

  predicate IsDigit(c: char) { '0' <= c <= '9' }

  predicate AllDigits(s: string) { forall i :: 0 <= i < |s| ==> IsDigit(s[i]) }

  function DigitOf(c: char): Digit
    requires IsDigit(c)
  {
    c as int - '0' as int
  }

  function Digits(s: string): (ds: seq<Digit>)
    requires AllDigits(s)
    ensures |ds| == |s|
  {
    seq(|s|, i requires 0 <= i < |s| => DigitOf(s[i]))
  }

  /** The decimal digit sum of 2d. */
  function Doubled(d: Digit): Digit { if 2 * d > 9 then 2 * d - 9 else 2 * d }

  /** What a digit adds when `place` digits stand to its right. */
  function Term(d: Digit, place: nat): Digit { if place % 2 == 1 then Doubled(d) else d }

  function Sum(ds: seq<Digit>): nat {
    if ds == [] then 0 else Term(ds[0], |ds| - 1) + Sum(ds[1..])
  }

  predicate Valid(ds: seq<Digit>) { Sum(ds) % 10 == 0 }

  /** One more digit from the right. */
  lemma NextDigit(ds: seq<Digit>, i: nat, alternate: bool)
    requires i < |ds| && (alternate <==> (|ds| - 1 - i) % 2 == 1)
    ensures Sum(ds[i..]) == Sum(ds[i + 1..]) + if alternate then Doubled(ds[i]) else ds[i]
    ensures !alternate <==> (|ds| - i) % 2 == 1
  {
    assert ds[i..][1..] == ds[i + 1..];
  }

  // ---- the two loops -----------------------------------------------------------------------------------

  /** The acquirer's loop. */
  method AcquirerLuhn(pan: string) returns (valid: bool)
    requires AllDigits(pan)
    ensures valid <==> Valid(Digits(pan))
  {
    var sum: int, alternate := 0, false;
    ghost var ds := Digits(pan);
    var i := |pan| - 1;
    while i >= 0
      invariant -1 <= i < |pan|
      invariant sum == Sum(ds[i + 1..])
      invariant alternate <==> (|pan| - 1 - i) % 2 == 1
    {
      NextDigit(ds, i, alternate);
      var digit: int := pan[i] as int - '0' as int;
      if alternate {
        digit := digit * 2;
        if digit > 9 { digit := digit - 9; }
      }
      sum := sum + digit;
      alternate := !alternate;
      i := i - 1;
    }
    assert ds[0..] == ds;
    valid := sum % 10 == 0;
  }

  /** The store's loop. */
  method StoreLuhn(number: string) returns (valid: bool)
    requires AllDigits(number)
    ensures valid <==> Valid(Digits(number))
  {
    var sum: int, double := 0, false;
    ghost var ds := Digits(number);
    for index := |number| downto 0
      invariant sum == Sum(ds[index..])
      invariant double <==> (|number| - index) % 2 == 1
    {
      NextDigit(ds, index, double);
      var digit: int := number[index] as int - '0' as int;
      if double {
        digit := digit * 2;
        if digit > 9 { digit := digit - 9; }
      }
      sum := sum + digit;
      double := !double;
    }
    assert ds[0..] == ds;
    valid := sum % 10 == 0;
  }

  // ---- error detection ---------------------------------------------------------------------------------

  lemma {:induction false} SumWithChangedDigit(ds: seq<Digit>, k: nat, d: Digit)
    requires k < |ds|
    ensures Sum(ds[k := d]) - Term(d, |ds| - 1 - k) == Sum(ds) - Term(ds[k], |ds| - 1 - k)
  {
    if k == 0 {
      assert ds[0 := d][1..] == ds[1..];
    } else {
      assert ds[k := d][1..] == ds[1..][k - 1 := d];
      SumWithChangedDigit(ds[1..], k - 1, d);
    }
  }

  /** At any length, one wrong digit always breaks the check. */
  lemma SingleErrorDetected(ds: seq<Digit>, k: nat, d: Digit)
    requires Valid(ds) && k < |ds| && d != ds[k]
    ensures !Valid(ds[k := d])
  {
    SumWithChangedDigit(ds, k, d);
    TermsDiffer(d, ds[k], |ds| - 1 - k);
    SmallShift(Sum(ds), Sum(ds[k := d]) - Sum(ds));
  }

  /** Doubling with digit sum maps the ten digits to ten different digits. */
  lemma TermsDiffer(a: Digit, b: Digit, place: nat)
    requires a != b
    ensures Term(a, place) != Term(b, place) && -10 < Term(a, place) - Term(b, place) < 10
  {
  }

  function Gain(d: Digit): (g: int)
    ensures -4 <= g <= 4
  {
    Doubled(d) - d
  }

  /** Two digits gain the same from being doubled only if they are equal or are 0 and 9. */
  lemma SameGain(a: Digit, b: Digit)
    ensures Gain(a) == Gain(b) <==> a == b || (a == 0 && b == 9) || (a == 9 && b == 0)
  {
  }

  lemma SwappedSum(ds: seq<Digit>, k: nat)
    requires k + 1 < |ds|
    ensures var gap := Gain(ds[k + 1]) - Gain(ds[k]);
            Sum(ds[k := ds[k + 1]][k + 1 := ds[k]]) == Sum(ds) + if (|ds| - 1 - k) % 2 == 1 then gap else -gap
  {
    var a, b, once, place := ds[k], ds[k + 1], ds[k := ds[k + 1]], |ds| - 1 - k;
    SumWithChangedDigit(ds, k, b);
    SumWithChangedDigit(once, k + 1, a);
    NextPlace(a, place - 1);
    NextPlace(b, place - 1);
  }

  lemma NextPlace(d: Digit, place: nat)
    ensures Term(d, place + 1) - Term(d, place) == if place % 2 == 0 then Gain(d) else -Gain(d)
    ensures (place + 1) % 2 == 1 <==> place % 2 == 0
  {
  }

  lemma SmallShift(sum: int, shift: int)
    requires sum % 10 == 0 && -10 < shift < 10
    ensures (sum + shift) % 10 == 0 <==> shift == 0
  {
  }

  /** Exchanging two neighbours goes unnoticed exactly when they are equal or are 0 and 9. */
  lemma TranspositionDetected(ds: seq<Digit>, k: nat)
    requires Valid(ds) && k + 1 < |ds|
    ensures Valid(ds[k := ds[k + 1]][k + 1 := ds[k]])
            <==> ds[k] == ds[k + 1] || (ds[k] == 0 && ds[k + 1] == 9) || (ds[k] == 9 && ds[k + 1] == 0)
  {
    SwappedSum(ds, k);
    SameGain(ds[k], ds[k + 1]);
    SmallShift(Sum(ds), Sum(ds[k := ds[k + 1]][k + 1 := ds[k]]) - Sum(ds));
  }
}
