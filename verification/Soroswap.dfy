// The constant-product quote used for Soroswap pairs, with every saturating branch kept.

module Soroswap {
  import opened Arith
  import opened Base

  /** `soroswap_fee`: ceil(3 * amountIn / 1000), with the numerator saturating. */
  function Fee(amountIn: int128): (fee: int128)
    ensures amountIn <= 0 ==> fee == 0
    ensures amountIn > 0 ==> 0 < fee <= amountIn
    ensures amountIn > 0 && 3 * amountIn + 999 <= I128_MAX ==> 1000 * (fee - 1) < 3 * amountIn <= 1000 * fee
  {
    if amountIn <= 0 then 0
    else (if 3 * amountIn > I128_MAX || 3 * amountIn + 999 > I128_MAX then I128_MAX else 3 * amountIn + 999) / 1000
  }

  /** The part of the input that is priced. */
  function Priced(amountIn: int128): (x: int128)
    ensures amountIn > 0 ==> 0 <= x < amountIn
  {
    amountIn - Fee(amountIn)
  }

  function Saturate(x: int): (r: int128)
    requires x >= 0
    ensures r <= x && (x <= I128_MAX ==> r == x)
  {
    if x > I128_MAX then I128_MAX else x
  }

  /** `soroswap_get_amount_out`. */
  function AmountOut(amountIn: int128, reserveIn: int128, reserveOut: int128): (out: int128)
    ensures out >= 0
  {
    if amountIn <= 0 || reserveIn <= 0 || reserveOut <= 0 then 0
    else
      var x := Priced(amountIn);
      if x <= 0 then 0
      else
        MulLe(0, x, reserveOut);
        Quote(Saturate(x * reserveOut), Saturate(reserveIn + x))
  }

  function Quote(numerator: int128, denominator: int128): (q: int128)
    requires numerator >= 0 && denominator > 0
    ensures 0 <= q
    ensures q * denominator <= numerator < (q + 1) * denominator
  {
    DivBound(numerator, denominator);
    MulLe(1, denominator, numerator);
    MulLe(numerator / denominator + 1, 0, denominator);
    QuotientBound(numerator, denominator);
    numerator / denominator
  }

  lemma QuotientBound(a: int, d: int)
    requires a >= 0 && d > 0
    ensures 0 <= a / d <= a
  {
    DivBound(a, d);
    MulLe(a / d + 1, 0, d);
    MulLe(1, d, a / d);
  }

  /** The quote never empties the pair: for every input, saturating or not, the output is
      below a positive output reserve. */
  lemma OutputBelowReserve(amountIn: int128, reserveIn: int128, reserveOut: int128)
    requires reserveOut > 0
    ensures AmountOut(amountIn, reserveIn, reserveOut) < reserveOut
  {
    if amountIn > 0 && reserveIn > 0 && Priced(amountIn) > 0 {
      var x := Priced(amountIn);
      var q := AmountOut(amountIn, reserveIn, reserveOut);
      MulLe(0, x, reserveOut);
      var d := Saturate(reserveIn + x);
      MulLe(reserveOut, q, d);
      if reserveIn + x <= I128_MAX {
        Distribute(reserveIn, x, reserveOut);
        MulLt(0, reserveIn, reserveOut);
      } else {
        MulLe(2, reserveOut, d);
        MulLe(2, q, d);
      }
    }
  }

  /** Paying out no more than the input's share of the grown pool keeps the product. */
  lemma PaidFromProceeds(reserveIn: int, reserveOut: int, x: int, out: int)
    requires out * (reserveIn + x) <= x * reserveOut
    ensures (reserveIn + x) * (reserveOut - out) >= reserveIn * reserveOut
  {
    Distribute(reserveIn, x, reserveOut);
    Distribute(reserveOut, -out, reserveIn + x);
  }

  /** The pair's product does not fall, on the priced input, whenever the denominator is representable. */
  lemma ProductNeverFalls(amountIn: int128, reserveIn: int128, reserveOut: int128)
    requires amountIn > 0 && reserveIn > 0 && reserveOut > 0
    requires reserveIn + Priced(amountIn) <= I128_MAX
    ensures var out := AmountOut(amountIn, reserveIn, reserveOut);
            (reserveIn + amountIn - Fee(amountIn)) * (reserveOut - out) >= reserveIn * reserveOut
  {
    hide Quote, Fee;
    var x, out := Priced(amountIn), AmountOut(amountIn, reserveIn, reserveOut);
    MulLe(0, x, reserveOut);
    PaidFromProceeds(reserveIn, reserveOut, x, out);
  }

  lemma OneUnitFromProceeds(reserveIn: int, reserveOut: int, x: int)
    ensures (reserveIn + x) * (reserveOut - 1) >= reserveIn * reserveOut <==> x * reserveOut >= reserveIn + x
    ensures x * reserveOut >= 0 ==> (reserveIn + x) * reserveOut >= reserveIn * reserveOut
  {
    Distribute(reserveIn, x, reserveOut);
    Distribute(reserveOut, -1, reserveIn + x);
  }

  /** The pair's product does not fall exactly when the denominator is representable, or the numerator stays short of the
      saturated one, or it reaches the denominator's true value. */
  lemma ProductFallsExactly(amountIn: int128, reserveIn: int128, reserveOut: int128)
    requires amountIn > 0 && reserveIn > 0 && reserveOut > 0
    ensures var x, out := Priced(amountIn), AmountOut(amountIn, reserveIn, reserveOut);
            (reserveIn + x) * (reserveOut - out) >= reserveIn * reserveOut <==>
            reserveIn + x <= I128_MAX || x * reserveOut < I128_MAX || x * reserveOut >= reserveIn + x
  {
    hide Quote, Fee, Saturate;
    var x, out := Priced(amountIn), AmountOut(amountIn, reserveIn, reserveOut);
    MulLe(0, x, reserveOut);
    if reserveIn + x <= I128_MAX {
      ProductNeverFalls(amountIn, reserveIn, reserveOut);
    } else {
      SaturatedQuote(x, reserveIn, reserveOut);
      OneUnitFromProceeds(reserveIn, reserveOut, x);
    }
  }

  lemma SaturatedQuote(x: int128, reserveIn: int128, reserveOut: int128)
    requires 0 <= x && reserveIn + x > I128_MAX && x * reserveOut >= 0
    ensures Quote(Saturate(x * reserveOut), Saturate(reserveIn + x)) == if x * reserveOut < I128_MAX then 0 else 1
  {
  }

  /** Where the denominator saturates the product can fall. */
  lemma SaturatedDenominatorBreaksProduct()
    ensures var amountIn, reserveOut := I128_MAX / 2 + I128_MAX / 4, 2;
            var out := AmountOut(amountIn, I128_MAX, reserveOut);
            (I128_MAX + amountIn - Fee(amountIn)) * (reserveOut - out) < I128_MAX * reserveOut
  {
    var amountIn := I128_MAX / 2 + I128_MAX / 4;
    assert Fee(amountIn) == I128_MAX / 1000;
    assert Saturate(Priced(amountIn) * 2) == I128_MAX == Saturate(I128_MAX + Priced(amountIn));
    assert AmountOut(amountIn, I128_MAX, 2) == 1;
  }

  /** The quote of a priced input x. */
  function QuoteAt(x: nat, reserveIn: int128, reserveOut: int128): (q: int)
    requires reserveIn > 0 && reserveOut > 0
    ensures q >= 0
  {
    MulLe(0, x, reserveOut);
    Quote(Saturate(x * reserveOut), Saturate(reserveIn + x))
  }

  lemma OutputIsQuote(amountIn: int128, reserveIn: int128, reserveOut: int128)
    requires reserveIn > 0 && reserveOut > 0
    ensures AmountOut(amountIn, reserveIn, reserveOut)
            == if amountIn > 0 then QuoteAt(Priced(amountIn), reserveIn, reserveOut) else 0
  {
    if amountIn > 0 && Priced(amountIn) == 0 {
      assert Saturate(0 * reserveOut) == 0;
    }
  }

  lemma QuoteBounds(x: nat, reserveIn: int128, reserveOut: int128)
    requires reserveIn > 0 && reserveOut > 0 && 0 <= x * reserveOut <= I128_MAX
    ensures var q, d := QuoteAt(x, reserveIn, reserveOut), Saturate(reserveIn + x);
            0 < d <= reserveIn + x && q * d <= x * reserveOut < (q + 1) * d
    ensures reserveIn + x <= I128_MAX ==> Saturate(reserveIn + x) == reserveIn + x
  {
    hide Quote;
  }

  lemma SaturateFlat(a: nat, b: nat)
    requires a <= b
    ensures a > I128_MAX ==> Saturate(a) == Saturate(b)
  {
  }

  /** `MonotoneQuotient` with a smaller second divisor. */
  lemma MonotoneBelow(x: int, y: int, r: int, s: int, p: int, q: int, d: int)
    requires 0 < x <= y && r > 0 && s > 0 && 0 <= p && 0 <= q && 0 < d <= r + y
    requires p * (r + x) <= x * s && y * s < (q + 1) * d
    ensures p <= q
  {
    MulLe(d, r + y, q + 1);
    MonotoneQuotient(x, y, r, s, p, q);
  }

  /** Up to the saturation of the numerator the quote rises, whether or not the denominator saturates on the way. */
  lemma QuoteRises(x: nat, y: nat, reserveIn: int128, reserveOut: int128)
    requires x <= y && reserveIn > 0 && reserveOut > 0 && y * reserveOut <= I128_MAX
    ensures QuoteAt(x, reserveIn, reserveOut) <= QuoteAt(y, reserveIn, reserveOut)
  {
    hide QuoteAt, Saturate;
    MulLe(x, y, reserveOut);
    MulLe(0, x, reserveOut);
    var p, q := QuoteAt(x, reserveIn, reserveOut), QuoteAt(y, reserveIn, reserveOut);
    QuoteBounds(x, reserveIn, reserveOut);
    QuoteBounds(y, reserveIn, reserveOut);
    if x > 0 && reserveIn + x <= I128_MAX {
      MonotoneBelow(x, y, reserveIn, reserveOut, p, q, Saturate(reserveIn + y));
    } else {
      SaturateFlat(reserveIn + x, reserveIn + y);
      QuotientMonotone(x * reserveOut, y * reserveOut, Saturate(reserveIn + x), p, q, Saturate(reserveIn + y));
    }
  }

  /** Equal divisors, or nothing to divide. */
  lemma QuotientMonotone(a: int, b: int, d: int, p: int, q: int, e: int)
    requires 0 <= a <= b && d > 0 && e > 0 && p >= 0 && q >= 0 && (d == e || a == 0)
    requires p * d <= a && b < (q + 1) * e
    ensures p <= q
  {
    if a == 0 {
      MulLe(1, p, d);
    } else {
      MulLe(q + 1, p, d);
    }
  }

  /** From the saturation of the numerator on the quote falls. */
  lemma QuoteFalls(x: nat, y: nat, reserveIn: int128, reserveOut: int128)
    requires x <= y && reserveIn > 0 && reserveOut > 0 && x * reserveOut >= I128_MAX
    ensures QuoteAt(y, reserveIn, reserveOut) <= QuoteAt(x, reserveIn, reserveOut)
    ensures Saturate(y * reserveOut) == I128_MAX
  {
    hide Quote;
    MulLe(x, y, reserveOut);
    var p, q := QuoteAt(y, reserveIn, reserveOut), QuoteAt(x, reserveIn, reserveOut);
    var d, e := Saturate(reserveIn + x), Saturate(reserveIn + y);
    MulLe(d, e, p);
    MulLe(q + 1, p, d);
  }

  /** More input never buys less, as long as the larger numerator is representable. */
  lemma OutputMonotone(small: int128, large: int128, reserveIn: int128, reserveOut: int128)
    requires small <= large && reserveIn > 0 && reserveOut > 0
    requires large > 0 ==> Priced(large) * reserveOut <= I128_MAX
    ensures AmountOut(small, reserveIn, reserveOut) <= AmountOut(large, reserveIn, reserveOut)
  {
    hide AmountOut, QuoteAt;
    OutputIsQuote(small, reserveIn, reserveOut);
    OutputIsQuote(large, reserveIn, reserveOut);
    if small > 0 {
      PricedMonotone(small, large);
      QuoteRises(Priced(small), Priced(large), reserveIn, reserveOut);
    }
  }

  /** The largest priced input whose numerator is representable. */
  function LastExact(reserveOut: int128): (x: nat)
    requires reserveOut > 0
    ensures x * reserveOut <= I128_MAX < (x + 1) * reserveOut
    ensures x >= 1
  {
    DivBound(I128_MAX, reserveOut);
    MulLe(1, I128_MAX / reserveOut, reserveOut);
    MulLe(I128_MAX / reserveOut + 1, 1, reserveOut);
    I128_MAX / reserveOut
  }

  /** Whether inputs up to a priced amount stay short of the numerator's saturation, or the quote there has not yet fallen
      below its peak. */
  predicate Steady(priced: int, reserveIn: int128, reserveOut: int128)
    requires reserveIn > 0 && reserveOut > 0
  {
    var x := LastExact(reserveOut);
    var before, after := QuoteAt(x, reserveIn, reserveOut), QuoteAt(x + 1, reserveIn, reserveOut);
    priced <= x || Saturate(reserveIn + priced) * (if before < after then after else before) <= I128_MAX
  }

  ghost predicate MonotoneUpTo(most: int128, reserveIn: int128, reserveOut: int128) {
    forall small: int128, large: int128 :: small <= large <= most ==>
      AmountOut(small, reserveIn, reserveOut) <= AmountOut(large, reserveIn, reserveOut)
  }

  /** Every priced amount below that of an input is the priced amount of some smaller input. */
  lemma {:induction false} PricedReaches(most: int128, x: int) returns (amountIn: int128)
    requires most >= 0 && 0 <= x <= Priced(most)
    ensures 0 <= amountIn <= most && Priced(amountIn) == x
    decreases most
  {
    if Priced(most) == x {
      amountIn := most;
    } else {
      amountIn := PricedReaches(most - 1, x);
    }
  }

  /** At a quotient of the full numerator, being at least m is the divisor fitting m times. */
  lemma FullQuotient(d: int128, q: int, m: int)
    requires d > 0 && q * d <= I128_MAX < (q + 1) * d
    ensures q >= m <==> d * m <= I128_MAX
  {
    MulLe(m, q, d);
    MulLe(q + 1, m, d);
  }

  /** The exact range on which the quote is monotone. */
  lemma MonotoneExactly(most: int128, reserveIn: int128, reserveOut: int128)
    requires reserveIn > 0 && reserveOut > 0
    ensures MonotoneUpTo(most, reserveIn, reserveOut) <==> Steady(Priced(most), reserveIn, reserveOut)
  {
    hide AmountOut, QuoteAt, Priced, LastExact, MonotoneUpTo;
    if Steady(Priced(most), reserveIn, reserveOut) {
      SteadyIsMonotone(most, reserveIn, reserveOut);
    } else {
      UnsteadyFalls(most, reserveIn, reserveOut);
    }
  }

  lemma QuoteBeyond(priced: nat, m: int, reserveIn: int128, reserveOut: int128)
    requires reserveIn > 0 && reserveOut > 0 && priced > LastExact(reserveOut)
    ensures QuoteAt(priced, reserveIn, reserveOut) >= m <==> Saturate(reserveIn + priced) * m <= I128_MAX
  {
    hide Quote, LastExact;
    MulLe(LastExact(reserveOut) + 1, priced, reserveOut);
    FullQuotient(Saturate(reserveIn + priced), QuoteAt(priced, reserveIn, reserveOut), m);
  }

  lemma SteadyIsMonotone(most: int128, reserveIn: int128, reserveOut: int128)
    requires reserveIn > 0 && reserveOut > 0 && Steady(Priced(most), reserveIn, reserveOut)
    ensures MonotoneUpTo(most, reserveIn, reserveOut)
  {
    hide AmountOut, QuoteAt, Priced, LastExact;
    forall small: int128, large: int128 | small <= large <= most
      ensures AmountOut(small, reserveIn, reserveOut) <= AmountOut(large, reserveIn, reserveOut)
    {
      OutputIsQuote(small, reserveIn, reserveOut);
      OutputIsQuote(large, reserveIn, reserveOut);
      if small > 0 {
        PricedMonotone(small, large);
        PricedMonotone(large, most);
        SteadyRises(Priced(small), Priced(large), Priced(most), reserveIn, reserveOut);
      }
    }
  }

  lemma SteadyRises(x: nat, y: nat, top: nat, reserveIn: int128, reserveOut: int128)
    requires reserveIn > 0 && reserveOut > 0 && x <= y <= top && Steady(top, reserveIn, reserveOut)
    ensures QuoteAt(x, reserveIn, reserveOut) <= QuoteAt(y, reserveIn, reserveOut)
  {
    hide QuoteAt, LastExact;
    var last := LastExact(reserveOut);
    if y <= last {
      MulLe(y, last, reserveOut);
      QuoteRises(x, y, reserveIn, reserveOut);
    } else {
      var before, after := QuoteAt(last, reserveIn, reserveOut), QuoteAt(last + 1, reserveIn, reserveOut);
      QuoteBeyond(top, if before < after then after else before, reserveIn, reserveOut);
      MulLe(last + 1, y, reserveOut);
      QuoteFalls(y, top, reserveIn, reserveOut);
      if x <= last {
        QuoteRises(x, last, reserveIn, reserveOut);
      } else {
        QuoteFalls(last + 1, x, reserveIn, reserveOut);
      }
    }
  }

  lemma UnsteadyFalls(most: int128, reserveIn: int128, reserveOut: int128)
    requires reserveIn > 0 && reserveOut > 0 && !Steady(Priced(most), reserveIn, reserveOut)
    ensures !MonotoneUpTo(most, reserveIn, reserveOut)
  {
    hide AmountOut, QuoteAt, Priced, LastExact;
    var last := LastExact(reserveOut);
    var before, after := QuoteAt(last, reserveIn, reserveOut), QuoteAt(last + 1, reserveIn, reserveOut);
    PositivePriced(most);
    QuoteBeyond(Priced(most), if before < after then after else before, reserveIn, reserveOut);
    var small := PricedReaches(most, if before < after then last + 1 else last);
    PositivePriced(small);
    OutputIsQuote(small, reserveIn, reserveOut);
    OutputIsQuote(most, reserveIn, reserveOut);
    assert AmountOut(small, reserveIn, reserveOut) > AmountOut(most, reserveIn, reserveOut);
  }

  lemma PositivePriced(amountIn: int128)
    requires Priced(amountIn) > 0
    ensures amountIn > 0
  {
  }

  lemma PricedMonotone(small: int128, large: int128)
    requires 0 < small <= large
    ensures Priced(small) <= Priced(large)
  {
  }

  lemma PoolShare(x: int, r: int, s: int, p: int)
    ensures p * (r + x) <= x * s <==> r * p <= x * (s - p)
  {
    Distribute(r, x, p);
    Distribute(s, -p, x);
  }

  lemma MonotoneQuotient(x: int, y: int, r: int, s: int, p: int, q: int)
    requires 0 < x <= y && r > 0 && s > 0 && 0 <= p && 0 <= q
    requires p * (r + x) <= x * s
    requires y * s < (q + 1) * (r + y)
    ensures p <= q
  {
    PoolShare(x, r, s, p);
    PoolShare(y, r, s, p);
    MulLe(0, r, p);
    NonNegativeFactor(s - p, x, r * p);
    MulLe(x, y, s - p);
    MulLe(q + 1, p, r + y);
  }

  lemma NonNegativeFactor(a: int, x: int, lower: int)
    requires x > 0 && lower >= 0 && a * x >= lower
    ensures a >= 0
  {
    MulLe(a, -1, x);
  }

  /** With a saturating numerator, more input can buy less. */
  lemma SaturatedNumeratorBreaksMonotonicity()
    ensures var reserveIn, reserveOut := 1000, I128_MAX;
            AmountOut(1000000, reserveIn, reserveOut) < AmountOut(100, reserveIn, reserveOut)
  {
    assert Priced(100) == 99 && Priced(1000000) == 997000;
    assert Saturate(99 * I128_MAX) == I128_MAX == Saturate(997000 * I128_MAX);
    assert AmountOut(100, 1000, I128_MAX) == I128_MAX / 1099;
    assert AmountOut(1000000, 1000, I128_MAX) == I128_MAX / 998000;
  }

  /** Swapping and then swapping the proceeds back through the same pair returns strictly less:
      the only condition is that the pair can hold the input. */
  lemma ThereAndBackLoses(amountIn: int128, reserveIn: int128, reserveOut: int128)
    requires amountIn > 0 && reserveIn > 0 && reserveOut > 0 && reserveIn + amountIn <= I128_MAX
    ensures var out := AmountOut(amountIn, reserveIn, reserveOut);
            out < reserveOut && AmountOut(out, reserveOut - out, reserveIn + amountIn) < amountIn
  {
    var out := AmountOut(amountIn, reserveIn, reserveOut);
    OutputBelowReserve(amountIn, reserveIn, reserveOut);
    var back := AmountOut(out, reserveOut - out, reserveIn + amountIn);
    if out > 0 && Priced(out) > 0 {
      var x, y := Priced(amountIn), Priced(out);
      MulLe(0, x, reserveOut);
      MulLe(0, y, reserveIn + amountIn);
      BackIsLess(amountIn, x, reserveIn, reserveOut, out, y, back);
    }
  }

  /** out <= x * s / (r + x) and back <= y * (r + a) / (s - out + y) with x < a, y < out. */
  lemma BackIsLess(a: int, x: int, r: int, s: int, out: int, y: int, back: int)
    requires 0 < x < a && r > 0 && 0 < y < out < s && back >= 0
    requires out * (r + x) <= x * s
    requires back * (s - out + y) <= y * (r + a)
    ensures back < a
  {
    var z := s - out;
    // out * r <= x * z
    Distribute(r, x, out);
    Distribute(z, out, x);
    assert out * r <= x * z;
    // y * r < a * z
    MulLt(y, out, r);
    MulLt(x, a, z);
    assert y * r < a * z;
    Distribute(r, a, y);
    Distribute(z, y, a);
    assert y * (r + a) < a * (z + y);
    MulLe(a, back, z + y);
  }
}
