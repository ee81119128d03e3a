/**
 * The price of a paid conversion, computed from the file size in megabytes
 * (`calculate_price` in main.py). Sizes are exact reals here.
 */
module Pricing {

  /** Files up to this size (inclusive) are charged at the low rate. */
  const LowRateLimitMb: real := 20.0
  /** The least price of a file on the low rate. */
  const MinimumPrice: int := 1300

  /** Python's `int()` applied to a number: truncation toward zero. */
  function Trunc(x: real): (n: int)
    ensures x >= 0.0 ==> n as real <= x < n as real + 1.0
    ensures x < 0.0 ==> n as real - 1.0 < x <= n as real
  {
    if x >= 0.0 then x.Floor else -((-x).Floor)
  }

  /** The price before `int()` is applied to it. */
  function RawPrice(sizeMb: real): real
  {
    if sizeMb <= LowRateLimitMb then
      var p := sizeMb * 300.0 + 1000.0;
      if p < MinimumPrice as real then MinimumPrice as real else p
    else
      sizeMb * 500.0 + 1000.0
  }

  /** The price charged for a file of `sizeMb` megabytes; never below the minimum. */
  function CalculatePrice(sizeMb: real): (price: int)
    ensures price >= MinimumPrice
  {
    Trunc(RawPrice(sizeMb))
  }

  /** Up to 20 MB: 300 per MB plus 1000, truncated, and at least 1300 (so at most 7000). */
  lemma LowRatePrice(sizeMb: real)
    requires sizeMb <= LowRateLimitMb
    ensures MinimumPrice <= CalculatePrice(sizeMb) <= 7000
    ensures sizeMb * 300.0 + 1000.0 >= MinimumPrice as real ==>
      CalculatePrice(sizeMb) as real <= sizeMb * 300.0 + 1000.0 < CalculatePrice(sizeMb) as real + 1.0
    ensures sizeMb * 300.0 + 1000.0 < MinimumPrice as real ==> CalculatePrice(sizeMb) == MinimumPrice
  {
  }

  /** Above 20 MB: 500 per MB plus 1000, truncated, with no floor (the price exceeds 11000). */
  lemma HighRatePrice(sizeMb: real)
    requires sizeMb > LowRateLimitMb
    ensures CalculatePrice(sizeMb) as real <= sizeMb * 500.0 + 1000.0 < CalculatePrice(sizeMb) as real + 1.0
    ensures CalculatePrice(sizeMb) >= 11000
  {
  }

  /** Exactly 20 MB is on the low rate; just above it is on the high rate; 25 MB costs 13500. */
  lemma PriceAtBoundary()
    ensures CalculatePrice(20.0) == 7000
    ensures CalculatePrice(20.0001) == 11000
    ensures CalculatePrice(25.0) == 13500
    ensures CalculatePrice(0.0) == MinimumPrice
  {
    assert RawPrice(20.0001) == 11000.05;
  }

  /** A larger file never costs less, across the 20 MB boundary too. */
  lemma PriceMonotonic(x: real, y: real)
    requires x <= y
    ensures CalculatePrice(x) <= CalculatePrice(y)
  {
    assert RawPrice(x) <= RawPrice(y);
    assert RawPrice(x) >= 0.0;
  }
}
