/** `MoneyFormatExtensions.StandardizeAmount`: amounts rounded to cents,
    midpoints away from zero. A `decimal` is an exact `real`. */
module MoneyFormat {
  import opened Wrappers
  import StringConvert
  import Text

  /** `v` is a whole number of cents. */
  predicate IsCents(v: real) {
    (v * 100.0).Floor as real == v * 100.0
  }

  function Abs(x: real): real { if x < 0.0 then -x else x }

  /** Rounding to a whole number, midpoints away from zero. */
  function RoundAwayFromZero(x: real): (k: int)
    ensures -0.5 <= k as real - x <= 0.5
    ensures x >= 0.0 ==> k >= 0
    ensures x <= 0.0 ==> k <= 0
  {
    if x >= 0.0 then (x + 0.5).Floor else -((-x + 0.5).Floor)
  }

  /** `decimal.Round(value, 2, MidpointRounding.AwayFromZero)`: the amount in
      cents rounded to a whole number of cents. */
  function StandardizeAmount(value: real): (r: real)
    ensures IsCents(r)
    ensures -0.005 <= r - value <= 0.005
    ensures value >= 0.0 ==> r >= 0.0
    ensures value <= 0.0 ==> r <= 0.0
  {
    var k := RoundAwayFromZero(value * 100.0);
    assert (k as real / 100.0) * 100.0 == k as real;
    k as real / 100.0
  }

  /** No whole number of cents is strictly nearer to the input. */
  lemma StandardizeAmountNearest(value: real, cents: int)
    ensures Abs(StandardizeAmount(value) * 100.0 - value * 100.0) <= Abs(cents as real - value * 100.0)
  {
    var x := value * 100.0;
    var k := RoundAwayFromZero(x);
    assert StandardizeAmount(value) * 100.0 == k as real;
    if cents != k {
      assert cents < k || cents > k;
    }
  }

  /** A midpoint between two cents goes to the one farther from zero. */
  lemma StandardizeAmountMidpoint(cents: int)
    ensures StandardizeAmount((cents as real + 0.5) / 100.0) == (if cents >= 0 then cents + 1 else cents) as real / 100.0
  {
    var x := (cents as real + 0.5) / 100.0 * 100.0;
    assert x == cents as real + 0.5;
    if cents >= 0 {
      assert (x + 0.5).Floor == cents + 1;
    } else {
      assert -x + 0.5 == (-cents) as real;
      assert (-x + 0.5).Floor == -cents;
    }
  }

  lemma StandardizeAmountExamples()
    ensures StandardizeAmount(1.005) == 1.01
    ensures StandardizeAmount(-1.005) == -1.01
    ensures StandardizeAmount(2.344) == 2.34
  {
    StandardizeAmountMidpoint(100);
    assert (100 as real + 0.5) / 100.0 == 1.005;
    assert -1.005 == -(1.005);
    StandardizeAmountOdd(1.005);
    assert (2.344 * 100.0 + 0.5).Floor == 234;
  }

  /** Rounding is symmetric about zero. */
  lemma StandardizeAmountOdd(value: real)
    ensures StandardizeAmount(-value) == -StandardizeAmount(value)
  {
    assert (-value) * 100.0 == -(value * 100.0);
  }

  /** An amount already in cents is kept, so rounding twice is rounding once. */
  lemma StandardizeAmountIdempotent(value: real)
    ensures StandardizeAmount(StandardizeAmount(value)) == StandardizeAmount(value)
  {
    CentsKept(StandardizeAmount(value));
  }

  lemma CentsKept(v: real)
    requires IsCents(v)
    ensures StandardizeAmount(v) == v
  {
    var x := v * 100.0;
    assert x.Floor as real == x;
    var k := RoundAwayFromZero(x);
    assert k == x.Floor;
  }

  /** `StandardizeAmount(string)`: the text read by `ToDecimal` (0 for null
      or unparseable text), then rounded. */
  function StandardizeAmountText(value: Option<string>): (r: real)
    ensures value.None? ==> r == 0.0
    ensures value.Some? && StringConvert.TryParseDecimal(value.value).None? ==> r == 0.0
    ensures value.Some? && StringConvert.TryParseDecimal(value.value).Some? ==>
              r == StandardizeAmount(StringConvert.TryParseDecimal(value.value).value)
  {
    StandardizeAmount(StringConvert.ToDecimal(value))
  }

  /** Text beyond `decimal`'s range does not parse, so it standardises to 0. */
  lemma StandardizeAmountTextOverflow(d: string)
    requires d != [] && StringConvert.AllDigits(d) && Text.DigitsToNat(d) as real > StringConvert.MaxDecimal
    ensures StandardizeAmountText(Some(d)) == 0.0 && StandardizeAmountText(Some("-" + d)) == 0.0
  {
    StringConvert.ToDecimalOverflow(d);
    CentsKept(0.0);
  }
}
