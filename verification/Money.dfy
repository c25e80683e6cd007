/** The store's amounts: int64 cents, printed and read as decimal text. */
module Money {
  import opened Options
  import opened Text
  import opened Luhn
  import opened Numerals

  const MAX: int := 0x7FFF_FFFF_FFFF_FFFF
  const MIN: int := -MAX - 1

  predicate InRange(x: int) { MIN <= x <= MAX }

  type Int64 = x: int | InRange(x)

  /** Two's complement: what is left of a result in 64 bits. */
  function Wrap(x: int): (w: int)
    ensures InRange(w) && (w == x <==> InRange(x))
  {
    (x + MAX + 1) % (2 * MAX + 2) - MAX - 1
  }

  /** The int64 that differs from x by a multiple of two to the power 64. */
  lemma WrapExactly(x: int)
    ensures -9_223_372_036_854_775_808 <= Wrap(x) <= 9_223_372_036_854_775_807
    ensures (x - Wrap(x)) % 18_446_744_073_709_551_616 == 0
  {
  }

  // ---- two decimals ------------------------------------------------------------------------------------

  function TwoDigits(n: nat): (s: string)
    requires n < 100
    ensures |s| == 2 && AllDigits(s) && Number(s) == n
  {
    var s := [Numeral(n / 10), Numeral(n % 10)];
    NumberOfTwo(s);
    s
  }

  lemma NumberOfTwo(s: string)
    requires |s| == 2 && AllDigits(s)
    ensures Number(s) == 10 * DigitOf(s[0]) + DigitOf(s[1])
  {
    var a := s[..1];
    assert a[..0] == "" && Number("") == 0;
    assert Number(a) == DigitOf(s[0]);
  }

  lemma TwoDigitsAreUnique(s: string)
    requires |s| == 2 && AllDigits(s)
    ensures Number(s) < 100 && TwoDigits(Number(s)) == s
  {
    NumberOfTwo(s);
  }

  // ---- what a text denotes -----------------------------------------------------------------------------

  /** An optional sign, the units, and one or two decimals if there is a point. */
  datatype Reading = Reading(negative: bool, units: string, fraction: Option<string>) {
    predicate Valid() {
      && units != "" && AllDigits(units)
      && (fraction.Some? ==> 1 <= |fraction.value| <= 2 && AllDigits(fraction.value))
    }

    function Unsigned(): string { units + if fraction.Some? then "." + fraction.value else "" }

    function Spelled(): string { (if negative then "-" else "") + Unsigned() }

    function Cents(): (cents: nat)
      requires Valid()
    {
      if fraction.None? then 0
      else if |fraction.value| == 1 then 10 * Number(fraction.value)
      else Number(fraction.value)
    }

    /** The exact amount, in cents. */
    function Amount(): int
      requires Valid()
    {
      var magnitude := 100 * Number(units) + Cents();
      if negative then -magnitude else magnitude
    }

    predicate Canonical()
      requires Valid()
    {
      NoLeadingZero(units) && fraction.Some? && |fraction.value| == 2 && (negative ==> Amount() != 0)
    }
  }

  predicate Reads(text: string, r: Reading) { r.Valid() && Trim(text) == r.Spelled() }

  /** Accepted texts: the units must fit in 64 bits by themselves. */
  predicate Accepts(text: string, r: Reading) { Reads(text, r) && Number(r.units) <= MAX }

  lemma NoPointInDigits(s: string)
    requires AllDigits(s)
    ensures '.' !in s
  {
  }

  lemma ReadingIsUnique(text: string, r: Reading, q: Reading)
    requires Reads(text, r) && Reads(text, q)
    ensures r == q
  {
    UnsignedText(r);
    UnsignedText(q);
    SplitOfUnsigned(r);
    SplitOfUnsigned(q);
    assert Split(r.Unsigned())[0] == r.units && Split(q.Unsigned())[0] == q.units;
    assert r.fraction.Some? ==> Split(r.Unsigned())[1] == r.fraction.value;
    assert q.fraction.Some? ==> Split(q.Unsigned())[1] == q.fraction.value;
  }

  lemma UnsignedText(r: Reading)
    requires r.Valid()
    ensures r.Spelled() != "" && (r.Spelled()[0] == '-' <==> r.negative)
    ensures r.Spelled()[if r.negative then 1 else 0..] == r.Unsigned()
  {
  }

  /** What parsing leaves in the variable: the wrapped amount. */
  ghost function Parse(text: string): Option<Int64> {
    if r: Reading :| Accepts(text, r) then Some(Wrap(r.Amount())) else None
  }

  lemma ParseOf(text: string, r: Reading)
    requires Reads(text, r)
    ensures Parse(text) == if Number(r.units) <= MAX then Some(Wrap(r.Amount())) else None
  {
    forall q: Reading | Reads(text, q) ensures q == r { ReadingIsUnique(text, r, q); }
    if Number(r.units) <= MAX { assert Accepts(text, r); }
  }

  // ---- the parser --------------------------------------------------------------------------------------

  function Split(s: string): (parts: seq<string>)
    ensures parts != []
  {
    if s == "" then [""]
    else
      var rest := Split(s[1..]);
      if s[0] == '.' then [""] + rest else [[s[0]] + rest[0]] + rest[1..]
  }

  lemma {:induction false} SplitWithoutPoint(s: string)
    requires '.' !in s
    ensures Split(s) == [s]
  {
    if s != "" {
      SplitWithoutPoint(s[1..]);
      assert s == [s[0]] + s[1..];
    }
  }

  lemma {:induction false} SplitAtPoint(a: string, b: string)
    requires '.' !in a && '.' !in b
    ensures Split(a + "." + b) == [a, b]
  {
    var s := a + "." + b;
    if a == "" {
      SplitWithoutPoint(b);
      assert s[0] == '.' && s[1..] == b;
    } else {
      SplitAtPoint(a[1..], b);
      assert s[0] == a[0] && s[1..] == a[1..] + "." + b;
      assert a == [a[0]] + a[1..];
    }
  }

  lemma {:induction false} SplitInvert(s: string)
    ensures |Split(s)| == 1 ==> s == Split(s)[0]
    ensures |Split(s)| == 2 ==> s == Split(s)[0] + "." + Split(s)[1]
  {
    if s != "" {
      SplitInvert(s[1..]);
      assert s == [s[0]] + s[1..];
    }
  }

  lemma SplitOfUnsigned(r: Reading)
    requires r.Valid()
    ensures Split(r.Unsigned()) == [r.units] + if r.fraction.Some? then [r.fraction.value] else []
  {
    NoPointInDigits(r.units);
    if r.fraction.Some? {
      NoPointInDigits(r.fraction.value);
      SplitAtPoint(r.units, r.fraction.value);
      assert r.units + "." + r.fraction.value == r.Unsigned();
    } else {
      SplitWithoutPoint(r.units);
      assert r.Unsigned() == r.units;
    }
  }

  /** Decimal digits into an int64, unless they overflow it. */
  function ParseInt(s: string): Option<int>
    requires AllDigits(s)
  {
    if Number(s) <= MAX then Some(Number(s)) else None
  }

  lemma PaddedFraction(s: string)
    requires |s| == 1 && AllDigits(s)
    ensures AllDigits(s + "0") && Number(s + "0") == 10 * Number(s)
    ensures AllDigits("00") && Number("00") == 0
  {
    assert (s + "0")[..1] == s;
    assert "00"[..1] == "0" && "0"[..0] == "";
    assert Number("0") == 0;
  }

  /** The padded fraction reads as the reading's cents. */
  lemma FractionIsCents(r: Reading)
    requires r.Valid()
    ensures var padded := if r.fraction.None? then "00"
                          else if |r.fraction.value| == 1 then r.fraction.value + "0" else r.fraction.value;
            AllDigits(padded) && Number(padded) == r.Cents() && r.Cents() <= 99
  {
    PaddedFraction("0");
    if r.fraction.Some? {
      if |r.fraction.value| == 1 {
        PaddedFraction(r.fraction.value);
        TwoDigitsAreUnique(r.fraction.value + "0");
      } else {
        TwoDigitsAreUnique(r.fraction.value);
      }
    }
  }

  /** Wrapping after each step is wrapping once at the end. */
  lemma TotalIsWrapped(r: Reading)
    requires r.Valid()
    ensures var total := Wrap(Wrap(Number(r.units) * 100) + r.Cents());
            Wrap(r.Amount()) == if r.negative then Wrap(-total) else total
  {
    WrapOfSum(Number(r.units) * 100, r.Cents());
    WrapOfSum(Number(r.units) * 100 + r.Cents(), 0);
  }

  lemma WrapOfSum(x: int, y: int)
    ensures Wrap(Wrap(x) + y) == Wrap(x + y) && Wrap(-Wrap(x)) == Wrap(-x)
  {
    var k := (x + MAX + 1) / (2 * MAX + 2);
    assert Wrap(x) == x - k * (2 * MAX + 2);
    WholeTurns(x + y, -k);
    WholeTurns(-x, k);
  }

  lemma {:induction false} WholeTurns(x: int, k: int)
    ensures Wrap(x + k * (2 * MAX + 2)) == Wrap(x)
    decreases if k < 0 then -k else k
  {
    if k > 0 {
      WholeTurns(x, k - 1);
      OneTurn(x + (k - 1) * (2 * MAX + 2));
    } else if k < 0 {
      WholeTurns(x, k + 1);
      OneTurn(x + k * (2 * MAX + 2));
    }
  }

  lemma OneTurn(x: int)
    ensures Wrap(x + (2 * MAX + 2)) == Wrap(x)
  {
  }

  predicate Plausible(parts: seq<string>) {
    && 1 <= |parts| <= 2 && parts[0] != "" && AllDigits(parts[0])
    && (|parts| == 2 ==> 1 <= |parts[1]| <= 2 && AllDigits(parts[1]))
  }

  function FromParts(negative: bool, parts: seq<string>): (r: Reading)
    requires Plausible(parts)
    ensures r.Valid()
  {
    Reading(negative, parts[0], if |parts| == 2 then Some(parts[1]) else None)
  }

  predicate HasMinus(s: string) { s != "" && s[0] == '-' }

  function WithoutSign(s: string): string { if HasMinus(s) then s[1..] else s }

  /** Splitting finds the reading of a text, if it has one. */
  lemma SplitFindsReading(text: string)
    ensures var negative, parts := HasMinus(Trim(text)), Split(WithoutSign(Trim(text)));
            if Plausible(parts) then Reads(text, FromParts(negative, parts)) else Parse(text).None?
  {
    var value := Trim(text);
    var parts := Split(WithoutSign(value));
    if Plausible(parts) {
      SplitInvert(WithoutSign(value));
      assert WithoutSign(value) == FromParts(HasMinus(value), parts).Unsigned();
      assert HasMinus(value) ==> value == "-" + WithoutSign(value);
    } else {
      forall r: Reading ensures !Reads(text, r) {
        if r.Valid() && value == r.Spelled() {
          UnsignedText(r);
          SplitOfUnsigned(r);
          assert false;
        }
      }
    }
  }

  /** The arithmetic of the parser, with a wrap after every step. */
  method Combine(negative: bool, parts: seq<string>) returns (amount: Option<Int64>)
    requires Plausible(parts)
    ensures var r := FromParts(negative, parts);
            amount == if Number(r.units) <= MAX then Some(Wrap(r.Amount())) else None
  {
    FractionIsCents(FromParts(negative, parts));
    TotalIsWrapped(FromParts(negative, parts));
    var fraction := "00";
    if |parts| == 2 { fraction := if |parts[1]| == 1 then parts[1] + "0" else parts[1]; }
    var units := ParseInt(parts[0]);
    if units.None? { return None; }
    var cents := ParseInt(fraction);
    var total := Wrap(Wrap(units.value * 100) + cents.value);
    if negative { total := Wrap(-total); }
    return Some(total);
  }

  class MoneyVariable {
    var cents: Int64

    /** Leaves the variable alone on an error. */
    method UnmarshalJSON(data: string) returns (ok: bool)
      modifies this
      ensures ok <==> Parse(data).Some?
      ensures cents == if ok then Parse(data).value else old(cents)
    {
      var value := Trim(data);
      var negative := HasMinus(value);
      if negative { value := value[1..]; }
      var parts := Split(value);
      SplitFindsReading(data);
      if !Plausible(parts) { return false; }
      ParseOf(data, FromParts(negative, parts));
      var amount := Combine(negative, parts);
      if amount.None? { return false; }
      cents := amount.value;
      return true;
    }
  }

  // ---- the printer -------------------------------------------------------------------------------------

  /** Integer division and remainder of the source language round towards zero. */
  function Quotient(a: int, b: nat): int
    requires b > 0
  {
    if a < 0 then -(-a / b) else a / b
  }

  function Remainder(a: int, b: nat): int
    requires b > 0
  {
    a - b * Quotient(a, b)
  }

  function Signed(n: int): string { if n < 0 then "-" + Decimal(-n) else Decimal(n) }

  /** Padded with zeros to a width of two, the sign included. */
  function Padded(n: int): string { if 0 <= n < 10 then "0" + Decimal(n) else Signed(n) }

  /** The canonical reading of an amount. */
  function ReadingOf(amount: int): (r: Reading)
    ensures r.Valid()
  {
    var magnitude := if amount < 0 then -amount else amount;
    Reading(amount < 0, Decimal(magnitude / 100), Some(TwoDigits(magnitude % 100)))
  }

  /** What comes out for the smallest amount, whose negation overflows: --92233720368547758.-8. */
  const GARBLED := "-" + ("-" + Decimal(-MIN / 100)) + "." + "-8"

  function Marshalled(m: Int64): string { if m == MIN then GARBLED else ReadingOf(m).Spelled() }

  method MarshalJSON(m: Int64) returns (text: string)
    ensures text == Marshalled(m)
  {
    var value: int, sign := m, "";
    Magnitude(m);
    if value < 0 {
      sign := "-";
      value := Wrap(-value);
    }
    text := sign + Signed(Quotient(value, 100)) + "." + Padded(Remainder(value, 100));
    if m == MIN {
      SmallestPrinted();
    } else {
      DigitsPrinted(value);
      Printed(m, sign);
    }
  }

  /** What the printer works on: the magnitude, except that the smallest amount stays as it is. */
  lemma Magnitude(m: int)
    requires InRange(m)
    ensures (if m < 0 then Wrap(-m) else m) == if m == MIN then MIN else if m < 0 then -m else m
  {
  }

  lemma Printed(m: int, sign: string)
    requires InRange(m) && m != MIN && sign == if m < 0 then "-" else ""
    ensures var value: nat := if m < 0 then -m else m;
            sign + Decimal(value / 100) + "." + TwoDigits(value % 100) == ReadingOf(m).Spelled()
  {
    var value: nat := if m < 0 then -m else m;
    var units, fraction := Decimal(value / 100), TwoDigits(value % 100);
    assert ReadingOf(m) == Reading(m < 0, units, Some(fraction));
    assert sign + units + "." + fraction == sign + (units + ("." + fraction));
  }

  lemma DigitsPrinted(value: nat)
    ensures Signed(Quotient(value, 100)) == Decimal(value / 100)
    ensures Padded(Remainder(value, 100)) == TwoDigits(value % 100)
  {
    assert Remainder(value, 100) == value % 100;
    PaddedTwo(value % 100);
  }

  lemma SmallestPrinted()
    ensures Signed(Quotient(MIN, 100)) == "-" + Decimal(-MIN / 100) && Padded(Remainder(MIN, 100)) == "-8"
  {
    assert Quotient(MIN, 100) == -(-MIN / 100) && Remainder(MIN, 100) == -8;
    assert Decimal(8) == "8";
  }

  lemma PaddedTwo(n: nat)
    requires n < 100
    ensures Padded(n) == TwoDigits(n)
  {
    if n >= 10 { assert Decimal(n) == Decimal(n / 10) + [Numeral(n % 10)]; }
  }

  // ---- the laws ----------------------------------------------------------------------------------------

  lemma AmountOfReadingOf(amount: int)
    ensures ReadingOf(amount).Amount() == amount && ReadingOf(amount).Canonical()
  {
    var magnitude := if amount < 0 then -amount else amount;
    NumberOfDecimal(magnitude / 100);
  }

  lemma SpelledIsTrimmed(r: Reading)
    requires r.Valid()
    ensures Trim(r.Spelled()) == r.Spelled()
  {
    NothingToTrim(r.Spelled());
  }

  lemma GarbledIsRefused()
    ensures Parse(GARBLED).None?
  {
    assert GARBLED[0] == '-' && GARBLED[1] == '-' && GARBLED[|GARBLED| - 1] == '8';
    NothingToTrim(GARBLED);
    forall q: Reading ensures !Reads(GARBLED, q) {
      if q.Valid() && GARBLED == q.Spelled() {
        UnsignedText(q);
        assert false;
      }
    }
  }

  /** Reading back what was printed gives the amount, for every amount but the smallest. */
  lemma RoundTripExactly(m: Int64)
    ensures Parse(Marshalled(m)) == Some(m) <==> m != MIN
    ensures Parse(Marshalled(MIN)) == None
  {
    GarbledIsRefused();
    if m != MIN {
      var r := ReadingOf(m);
      AmountOfReadingOf(m);
      SpelledIsTrimmed(r);
      ParseOf(r.Spelled(), r);
      assert Wrap(r.Amount()) == m;
      assert Number(r.units) <= 100 * Number(r.units) + r.Cents() <= MAX;
    }
  }

  /** An accepted text is read without loss exactly when its amount fits in 64 bits. */
  lemma ExactWhenItFits(text: string, r: Reading)
    requires Accepts(text, r)
    ensures Parse(text).Some?
    ensures Parse(text) == Some(r.Amount()) <==> InRange(r.Amount())
  {
    ParseOf(text, r);
  }

  /** Every amount beyond the range whose units still fit is accepted in its canonical spelling, and read as another. */
  lemma BeyondRangeWraps(amount: nat)
    requires MAX < amount && amount / 100 <= MAX
    ensures var r := ReadingOf(amount);
            Accepts(r.Spelled(), r) && r.Amount() == amount && Parse(r.Spelled()) == Some(Wrap(amount))
                && Wrap(amount) != amount
  {
    AmountOfReadingOf(amount);
    NumberOfDecimal(amount / 100);
    SpelledIsTrimmed(ReadingOf(amount));
    ParseOf(ReadingOf(amount).Spelled(), ReadingOf(amount));
  }

  lemma WholeReading(digits: string) returns (r: Reading)
    requires digits != "" && AllDigits(digits)
    ensures r.Valid() && r.units == digits && r.Spelled() == digits + ".00" && r.Amount() == 100 * Number(digits)
  {
    PaddedFraction("0");
    r := Reading(false, digits, Some("00"));
    assert r.Spelled() == digits + ("." + "00");
  }

  /** 92233720368547759.00, the first whole amount beyond the range, is read as a negative one. */
  lemma FirstBeyondRange(digits: string)
    requires digits != "" && AllDigits(digits) && Number(digits) == 92_233_720_368_547_759
    ensures Parse(digits + ".00") == Some(-9_223_372_036_854_775_716)
  {
    var r := WholeReading(digits);
    SpelledIsTrimmed(r);
    ParseOf(digits + ".00", r);
    WrapBeyond();
  }

  lemma WrapBeyond()
    ensures Wrap(9_223_372_036_854_775_900) == -9_223_372_036_854_775_716
  {
  }

  lemma ReadingOfCanonical(r: Reading)
    requires r.Valid() && r.Canonical()
    ensures ReadingOf(r.Amount()) == r
  {
    DecimalOfNumber(r.units);
    TwoDigitsAreUnique(r.fraction.value);
    var magnitude := 100 * Number(r.units) + r.Cents();
    assert magnitude / 100 == Number(r.units) && magnitude % 100 == r.Cents();
    assert r.fraction == Some(TwoDigits(r.Cents()));
  }

  lemma CanonicalIsUnique(r: Reading)
    requires r.Valid()
    ensures r == ReadingOf(r.Amount()) <==> r.Canonical()
  {
    AmountOfReadingOf(r.Amount());
    if r.Canonical() { ReadingOfCanonical(r); }
  }

  /** Printing what was read always gives the canonical text of the same amount, and gives back the text that
      was read exactly when that was canonical already. */
  lemma ReprintingIsCanonical(text: string, r: Reading)
    requires Accepts(text, r) && MIN < r.Amount() <= MAX
    ensures Parse(text).Some? && Accepts(Marshalled(Parse(text).value), ReadingOf(r.Amount()))
    ensures ReadingOf(r.Amount()).Canonical() && ReadingOf(r.Amount()).Amount() == r.Amount()
    ensures Marshalled(Parse(text).value) == Trim(text) <==> r.Canonical()
  {
    var q := ReadingOf(r.Amount());
    ExactWhenItFits(text, r);
    AmountOfReadingOf(r.Amount());
    SpelledIsTrimmed(q);
    CanonicalIsUnique(r);
    if q.Spelled() == Trim(text) { ReadingIsUnique(text, r, q); }
  }
}
