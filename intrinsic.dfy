/** The intrinsic-value projector of mos.py: project EPS ten years ahead at
    the growth rate, price it at a growth-derived multiple, discount it back
    and apply a margin-of-safety haircut. */
module Intrinsic {
  import opened Records

  const ProjectionYears: nat := 10
  /** future_pe = growth_rate * 200 */
  const FuturePeFactor: real := 200.0
  const DefaultDiscountRate: real := 0.15
  const DefaultMarginOfSafety: real := 0.5

  /** x^n for a natural exponent; exact over the reals. */
  function Pow(x: real, n: nat): (r: real)
    ensures x != 0.0 ==> r != 0.0
    ensures x > 0.0 ==> r > 0.0
  {
    if n == 0 then 1.0 else x * Pow(x, n - 1)
  }

  /** The returned dictionary. The degenerate result has only the four
      valuation keys, so the 'Groth_rate' and 'EPS_now' entries are
      optional; rounding to two decimals is not modelled. */
  datatype IntrinsicValue = IntrinsicValue(
    growthPercent: Option<real>,   // 'Groth_rate'
    epsNow: Option<real>,          // 'EPS_now'
    eps10y: real,                  // 'EPS_10y'
    futureValue: real,             // 'Future Value'
    fairValueToday: real,          // 'Fair Value Today'
    mosPrice: real)                // 'MOS Price (50%)'

  /** calculate_intrinsic_value. `breachYear` is only logged. Past the
      guard, a discount rate of -1 would divide by zero, which the source
      does not handle; the guard's zero result needs no discount rate. */
  function CalculateIntrinsicValue(epsNow: real, growthRate: real, breachYear: int,
                                   discountRate: real := DefaultDiscountRate,
                                   mos: real := DefaultMarginOfSafety): (v: IntrinsicValue)
    requires epsNow > 0.0 && growthRate > 0.0 ==> discountRate != -1.0
    ensures v.growthPercent.None? <==> epsNow <= 0.0 || growthRate <= 0.0
    ensures v.growthPercent.None? ==>
              v == IntrinsicValue(None, None, 0.0, 0.0, 0.0, 0.0)
    ensures v.growthPercent.Some? ==>
              v.growthPercent == Some(growthRate * 100.0) && v.epsNow == Some(epsNow)
  {
    if epsNow <= 0.0 || growthRate <= 0.0 then
      IntrinsicValue(None, None, 0.0, 0.0, 0.0, 0.0)
    else
      var eps10y := epsNow * Pow(1.0 + growthRate, ProjectionYears);
      var futurePe := growthRate * FuturePeFactor;
      var futureValue := eps10y * futurePe;
      var fairValueToday := futureValue / Pow(1.0 + discountRate, ProjectionYears);
      var mosPrice := fairValueToday * (1.0 - mos);
      IntrinsicValue(Some(growthRate * 100.0), Some(epsNow), eps10y, futureValue, fairValueToday, mosPrice)
  }

  lemma {:induction false} PowAboveOne(x: real, n: nat)
    requires x > 1.0 && n > 0
    ensures Pow(x, n) > 1.0
  {
    if n > 1 {
      PowAboveOne(x, n - 1);
      assert x * Pow(x, n - 1) > 1.0 * Pow(x, n - 1);
    }
  }

  /** With positive EPS and growth, EPS grows over the ten years. */
  lemma EpsGrows(epsNow: real, growthRate: real, breachYear: int, discountRate: real, mos: real)
    requires epsNow > 0.0 && growthRate > 0.0 && discountRate != -1.0
    ensures CalculateIntrinsicValue(epsNow, growthRate, breachYear, discountRate, mos).eps10y > epsNow
  {
    PowAboveOne(1.0 + growthRate, ProjectionYears);
    var p := Pow(1.0 + growthRate, ProjectionYears);
    assert epsNow * p > epsNow * 1.0;
  }

  /** The ten-year EPS compounds at the growth rate, the future value
      prices it at 200 times the growth rate, and compounding today's fair
      value at the discount rate for ten years gives back the future value. */
  lemma ValuationChain(epsNow: real, growthRate: real, breachYear: int, discountRate: real, mos: real)
    requires epsNow > 0.0 && growthRate > 0.0 && discountRate != -1.0
    ensures var v := CalculateIntrinsicValue(epsNow, growthRate, breachYear, discountRate, mos);
            && v.eps10y == epsNow * Pow(1.0 + growthRate, ProjectionYears)
            && v.futureValue == v.eps10y * (growthRate * FuturePeFactor)
            && v.fairValueToday * Pow(1.0 + discountRate, ProjectionYears) == v.futureValue
            && v.mosPrice == v.fairValueToday * (1.0 - mos)
  {
    var d := Pow(1.0 + discountRate, ProjectionYears);
    var v := CalculateIntrinsicValue(epsNow, growthRate, breachYear, discountRate, mos);
    assert (v.futureValue / d) * d == v.futureValue;
  }

  /** With the default margin of safety the buy price is half the fair value. */
  lemma DefaultMosHalvesFairValue(epsNow: real, growthRate: real, breachYear: int)
    ensures var v := CalculateIntrinsicValue(epsNow, growthRate, breachYear);
            v.mosPrice == v.fairValueToday / 2.0
  {
  }

  /** For positive EPS and growth, a discount rate above -1 and a margin of
      safety below 1, every valuation figure is strictly positive. */
  lemma PositiveValuation(epsNow: real, growthRate: real, breachYear: int, discountRate: real, mos: real)
    requires epsNow > 0.0 && growthRate > 0.0 && discountRate > -1.0 && mos < 1.0
    ensures var v := CalculateIntrinsicValue(epsNow, growthRate, breachYear, discountRate, mos);
            v.eps10y > 0.0 && v.futureValue > 0.0 && v.fairValueToday > 0.0 && v.mosPrice > 0.0
  {
    var v := CalculateIntrinsicValue(epsNow, growthRate, breachYear, discountRate, mos);
    var g := Pow(1.0 + growthRate, ProjectionYears);
    var d := Pow(1.0 + discountRate, ProjectionYears);
    PositiveProduct(epsNow, g);
    PositiveProduct(growthRate, FuturePeFactor);
    PositiveProduct(v.eps10y, growthRate * FuturePeFactor);
    PositiveQuotient(v.futureValue, d);
    PositiveProduct(v.fairValueToday, 1.0 - mos);
  }

  lemma PositiveProduct(a: real, b: real)
    requires a > 0.0 && b > 0.0
    ensures a * b > 0.0
  {
  }

  lemma PositiveQuotient(a: real, b: real)
    requires a > 0.0 && b > 0.0
    ensures a / b > 0.0
  {
  }

  /** The breach year is only logged: it changes no returned value. */
  lemma BreachYearIrrelevant(epsNow: real, growthRate: real, year1: int, year2: int, discountRate: real, mos: real)
    requires epsNow > 0.0 && growthRate > 0.0 ==> discountRate != -1.0
    ensures CalculateIntrinsicValue(epsNow, growthRate, year1, discountRate, mos)
         == CalculateIntrinsicValue(epsNow, growthRate, year2, discountRate, mos)
  {
  }
}
