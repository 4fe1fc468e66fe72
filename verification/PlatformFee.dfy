/** The platform convenience fee: clamp, rounding to paise, inclusive 18% tax and its halving, and the conversion of the
    payable amount to paise for the payment provider.

    Decimals are reals in rupees; amounts that were rounded to two places are whole numbers of paise. */
module PlatformFee {

  datatype Config = Config(rate: real, minFee: real, maxFee: real)

  /** All in paise. */
  datatype Fee = Fee(gross: int, taxable: int, gst: int, cgst: int, sgst: int)

  // ----- rounding -----

  /** Decimal's ROUND_HALF_UP to a whole number: halves go away from zero. */
  function RoundHalfUp(x: real): int {
    if x >= 0.0 then (x + 0.5).Floor else -((0.5 - x).Floor)
  }

  /** Python's round(): halves go to the even neighbour. */
  function RoundHalfEven(x: real): int {
    var f := x.Floor;
    if x - f as real < 0.5 then f
    else if x - f as real > 0.5 then f + 1
    else if f % 2 == 0 then f else f + 1
  }

  function Distance(x: real, y: real): real { if x < y then y - x else x - y }

  /** Rounding is to the nearest whole number, a half goes up in magnitude, and signs do not matter. */
  lemma RoundHalfUpMeans(x: real)
    ensures Distance(RoundHalfUp(x) as real, x) <= 0.5
    ensures x >= 0.0 && Distance(RoundHalfUp(x) as real, x) == 0.5 ==> RoundHalfUp(x) as real > x
    ensures RoundHalfUp(-x) == -RoundHalfUp(x)
  {
  }

  /** Python's rounding goes to the nearest whole number too, and a half to the even one. */
  lemma RoundHalfEvenMeans(x: real)
    ensures Distance(RoundHalfEven(x) as real, x) <= 0.5
    ensures Distance(RoundHalfEven(x) as real, x) == 0.5 ==> RoundHalfEven(x) % 2 == 0
  {
  }

  lemma RoundHalfUpNearest(x: real, n: int)
    requires Distance(n as real, x) < 0.5
    ensures RoundHalfUp(x) == n && RoundHalfEven(x) == n
  {
  }

  lemma RoundHalfUpMonotone(x: real, y: real)
    requires x <= y
    ensures RoundHalfUp(x) <= RoundHalfUp(y)
  {
  }

  // ----- the fee -----

  function Clamp(c: Config, raw: real): real {
    if raw < c.minFee then c.minFee
    else if raw > c.maxFee then c.maxFee
    else raw
  }

  function RoundedClamp(c: Config, raw: real): int { RoundHalfUp(Clamp(c, raw) * 100.0) }

  function RawFee(c: Config, amount: real): real { amount * c.rate }

  /** The gross convenience fee for an amount in rupees. */
  function GrossFee(c: Config, amount: real): int { RoundedClamp(c, RawFee(c, amount)) }

  function Taxable(gross: int): int { RoundHalfUp(gross as real / 1.18) }

  function SplitTax(gross: int): Fee {
    var taxable := Taxable(gross);
    var gst := gross - taxable;
    var cgst := RoundHalfUp(gst as real / 2.0);
    Fee(gross, taxable, gst, cgst, gst - cgst)
  }

  function CalculateFee(c: Config, amount: real): Fee { SplitTax(GrossFee(c, amount)) }

  /** In rupees. */
  function TotalPayable(c: Config, amount: real): real { amount + GrossFee(c, amount) as real / 100.0 }

  /** The provider's `int(round(amount * 100))`. */
  function AmountInPaise(amount: real): int { RoundHalfEven(amount * 100.0) }

  /** A fee in paise that Decimal's rounding gives for an amount in rupees. */
  predicate IsRoundedTo(paise: int, rupees: real) {
    var exact := rupees * 100.0;
    && -0.5 <= paise as real - exact <= 0.5
    && (paise as real - exact == 0.5 ==> exact >= 0.0)
    && (paise as real - exact == -0.5 ==> exact <= 0.0)
  }

  lemma RoundsTo(x: real)
    ensures IsRoundedTo(RoundHalfUp(x * 100.0), x)
  {
    RoundHalfUpMeans(x * 100.0);
  }

  /** Theorem: the fee is the amount times the rate, moved to the nearer bound if it is outside of them, to the nearest
      paisa. */
  lemma FeeMeans(c: Config, amount: real)
    requires c.minFee <= c.maxFee
    ensures var fee := CalculateFee(c, amount).gross;
      && (c.minFee <= amount * c.rate <= c.maxFee ==> IsRoundedTo(fee, amount * c.rate))
      && (amount * c.rate < c.minFee ==> IsRoundedTo(fee, c.minFee))
      && (amount * c.rate > c.maxFee ==> IsRoundedTo(fee, c.maxFee))
  {
    hide RoundHalfUp, IsRoundedTo, RoundedClamp, SplitTax, RawFee;
    ClampMeans(c, RawFee(c, amount));
    RawFeeIs(c, amount);
    GrossIsKept(GrossFee(c, amount));
  }

  lemma RawFeeIs(c: Config, amount: real)
    ensures RawFee(c, amount) == amount * c.rate
  {
  }

  lemma GrossIsKept(gross: int)
    ensures SplitTax(gross).gross == gross
  {
    hide RoundHalfUp;
  }

  lemma ClampMeans(c: Config, raw: real)
    requires c.minFee <= c.maxFee
    ensures c.minFee <= raw <= c.maxFee ==> IsRoundedTo(RoundedClamp(c, raw), raw)
    ensures raw < c.minFee ==> IsRoundedTo(RoundedClamp(c, raw), c.minFee)
    ensures raw > c.maxFee ==> IsRoundedTo(RoundedClamp(c, raw), c.maxFee)
  {
    hide RoundHalfUp, IsRoundedTo;
    RoundsTo(raw);
    RoundsTo(c.minFee);
    RoundsTo(c.maxFee);
  }

  /** Theorem: the taxable value is the fee divided by 1.18 to the nearest paisa, the tax is the rest, and the total
      to pay is the amount plus the fee. */
  lemma TaxMeans(c: Config, amount: real)
    ensures var fee := CalculateFee(c, amount);
      && -0.5 < fee.taxable as real - fee.gross as real / 1.18 < 0.5
      && fee.gst == fee.gross - fee.taxable
      && TotalPayable(c, amount) == amount + fee.gross as real / 100.0
  {
    hide GrossFee, RoundHalfUp;
    var gross := GrossFee(c, amount);
    RoundHalfUpMeans(gross as real / 1.18);
    NeverATie(gross, Taxable(gross));
    NeverATie(gross, Taxable(gross) - 1);
  }

  // ----- the tax division -----

  /** For a non-negative fee the taxable value is an integer quotient. */
  lemma TaxableQuotient(gross: int)
    requires gross >= 0
    ensures Taxable(gross) == (100 * gross + 59) / 118
  {
    var q := (100 * gross + 59) / 118;
    assert gross as real / 1.18 == (100 * gross) as real / 118.0;
    assert 118 * q <= 100 * gross + 59 < 118 * q + 118;
    assert (118 * q) as real / 118.0 == q as real;
    assert q as real <= gross as real / 1.18 + 0.5 < q as real + 1.0;
  }

  lemma TaxableOdd(gross: int)
    ensures Taxable(-gross) == -Taxable(gross)
  {
    assert (-gross) as real / 1.18 == -(gross as real / 1.18);
    RoundHalfUpMeans(gross as real / 1.18);
  }

  /** Theorem: a two-decimal fee divided by 1.18 is at least 1/118 paisa away from every half paisa. */
  lemma NeverATie(gross: int, n: int)
    ensures Distance(gross as real / 1.18, n as real + 0.5) >= 1.0 / 118.0
  {
    var numerator := 100 * gross - 118 * n - 59;
    assert gross as real / 1.18 - (n as real + 0.5) == numerator as real / 118.0;
    assert numerator % 2 != 0;
    if numerator > 0 {
      assert numerator as real / 118.0 >= 1.0 / 118.0;
    } else {
      assert numerator as real / 118.0 <= -1.0 / 118.0;
    }
  }

  /** Theorem: so any intermediate value with a smaller error, such as a quotient of finite precision, rounds to the
      same taxable value. */
  lemma FinitePrecisionIsHarmless(gross: int, quotient: real)
    requires Distance(quotient, gross as real / 1.18) < 1.0 / 118.0
    ensures RoundHalfUp(quotient) == Taxable(gross)
  {
    var exact := gross as real / 1.18;
    var t := Taxable(gross);
    RoundHalfUpMeans(exact);
    NeverATie(gross, t);
    NeverATie(gross, t - 1);
    RoundHalfUpNearest(quotient, t);
  }

  // ----- the split -----

  /** Theorem: the parts add up to the fee exactly; CGST and SGST differ by at most one paisa, CGST being the larger one
      for a non-negative fee and the smaller one for a negative fee. */
  lemma SplitAddsUp(gross: int)
    ensures var f := SplitTax(gross);
      && f.taxable + f.cgst + f.sgst == gross
      && (gross >= 0 ==> 0 <= f.cgst - f.sgst <= 1 && 0 <= f.sgst && 0 <= f.taxable)
      && (gross <= 0 ==> -1 <= f.cgst - f.sgst <= 0)
  {
    if gross >= 0 {
      TaxableQuotient(gross);
    } else {
      TaxableOdd(gross);
      TaxableQuotient(-gross);
    }
    var gst := gross - Taxable(gross);
    RoundHalfUpMeans(gst as real / 2.0);
  }

  /** Theorem: each half is within 0.795 paisa, hence within one paisa, of 9% of the taxable value. */
  lemma HalvesAreNinePercent(gross: int)
    ensures var f := SplitTax(gross);
      && Distance(f.cgst as real, 0.09 * f.taxable as real) <= 0.795
      && Distance(f.sgst as real, 0.09 * f.taxable as real) <= 0.795
  {
    var f := SplitTax(gross);
    RoundHalfUpMeans(gross as real / 1.18);
    RoundHalfUpMeans(f.gst as real / 2.0);
    assert gross as real == 1.18 * (gross as real / 1.18);
  }

  /** Theorem: one more paisa of fee raises the taxable value and the tax by 0 or 1 paisa, exactly one of them
      moving. */
  lemma OnePaisaMovesOnePart(gross: int)
    ensures var a, b := SplitTax(gross), SplitTax(gross + 1);
      || (b.taxable == a.taxable + 1 && b.gst == a.gst)
      || (b.taxable == a.taxable && b.gst == a.gst + 1)
  {
    if gross >= 0 {
      TaxableQuotient(gross);
      TaxableQuotient(gross + 1);
    } else {
      TaxableOdd(-gross);
      TaxableOdd(-gross - 1);
      TaxableQuotient(-gross);
      TaxableQuotient(-gross - 1);
    }
  }

  // ----- the clamp -----

  /** Theorem: with min <= max the fee lies between the rounded bounds. */
  lemma FeeBetweenBounds(c: Config, amount: real)
    requires c.minFee <= c.maxFee
    ensures RoundHalfUp(c.minFee * 100.0) <= GrossFee(c, amount) <= RoundHalfUp(c.maxFee * 100.0)
  {
    var clamped := Clamp(c, RawFee(c, amount));
    RoundHalfUpMonotone(c.minFee * 100.0, clamped * 100.0);
    RoundHalfUpMonotone(clamped * 100.0, c.maxFee * 100.0);
  }

  /** Theorem: with rate >= 0 and min <= max the fee never falls as the amount grows, and the total payable grows
      strictly. */
  lemma FeeMonotone(c: Config, a: real, b: real)
    requires c.rate >= 0.0 && c.minFee <= c.maxFee && a <= b
    ensures GrossFee(c, a) <= GrossFee(c, b)
    ensures a < b ==> TotalPayable(c, a) < TotalPayable(c, b)
  {
    hide RoundedClamp, RawFee;
    RawFeeMonotone(c, a, b);
    RoundedClampMonotone(c, RawFee(c, a), RawFee(c, b));
  }

  lemma RawFeeMonotone(c: Config, a: real, b: real)
    requires c.rate >= 0.0 && a <= b
    ensures RawFee(c, a) <= RawFee(c, b)
  {
    ScaleMonotone(a, b, c.rate);
  }

  lemma RoundedClampMonotone(c: Config, x: real, y: real)
    requires c.minFee <= c.maxFee && x <= y
    ensures RoundedClamp(c, x) <= RoundedClamp(c, y)
  {
    RoundHalfUpMonotone(Clamp(c, x) * 100.0, Clamp(c, y) * 100.0);
  }

  lemma ScaleMonotone(a: real, b: real, k: real)
    requires a <= b && k >= 0.0
    ensures a * k <= b * k
  {
  }

  /** Theorem: for a positive rate the fee is monotone in the amount exactly when the configured bounds, rounded to
      paise, are in order. */
  lemma FeeMonotoneIff(c: Config)
    requires c.rate > 0.0
    ensures (forall a: real, b: real :: a <= b ==> GrossFee(c, a) <= GrossFee(c, b))
       <==> RoundHalfUp(c.minFee * 100.0) <= RoundHalfUp(c.maxFee * 100.0)
  {
    hide RoundHalfUp, RoundedClamp;
    var low, high := RoundHalfUp(c.minFee * 100.0), RoundHalfUp(c.maxFee * 100.0);
    if c.minFee <= c.maxFee {
      RoundHalfUpMonotone(c.minFee * 100.0, c.maxFee * 100.0);
      forall a: real, b: real | a <= b ensures GrossFee(c, a) <= GrossFee(c, b) {
        FeeMonotone(c, a, b);
      }
    } else {
      forall a: real, b: real | a <= b && low <= high ensures GrossFee(c, a) <= GrossFee(c, b) {
        CrossedClamp(c, RawFee(c, a));
        CrossedClamp(c, RawFee(c, b));
        RawFeeMonotone(c, a, b);
      }
      var a, b := (c.minFee - 1.0) / c.rate, c.minFee / c.rate;
      Unscale(c.minFee - 1.0, c.rate);
      Unscale(c.minFee, c.rate);
      ScaleBack(a, b, c.rate);
      CrossedClamp(c, RawFee(c, a));
      CrossedClamp(c, RawFee(c, b));
      assert GrossFee(c, a) == low && GrossFee(c, b) == high;
    }
  }

  /** With the bounds crossed, the fee is the minimum below it and the maximum everywhere else. */
  lemma CrossedClamp(c: Config, raw: real)
    requires c.minFee > c.maxFee
    ensures RoundedClamp(c, raw) == RoundHalfUp(if raw < c.minFee then c.minFee * 100.0 else c.maxFee * 100.0)
  {
  }

  lemma Unscale(x: real, k: real)
    requires k > 0.0
    ensures x / k * k == x
  {
  }

  lemma ScaleBack(a: real, b: real, k: real)
    requires k > 0.0 && a * k < b * k
    ensures a < b
  {
    if a >= b {
      ScaleMonotone(b, a, k);
    }
  }

  // ----- charging -----

  /** Theorem: for an amount in whole paise the provider is charged exactly amount plus fee, even if the total
      reaches it as a binary float with an error below half a paisa. */
  lemma ChargedExactly(c: Config, amountPaise: int, total: real)
    requires Distance(total, TotalPayable(c, amountPaise as real / 100.0)) < 0.005
    ensures AmountInPaise(total) == amountPaise + GrossFee(c, amountPaise as real / 100.0)
  {
    var fee := GrossFee(c, amountPaise as real / 100.0);
    RoundHalfUpNearest(total * 100.0, amountPaise + fee);
  }

  /** Theorem: the parts on the invoice are what the provider is charged on top of the amount. */
  lemma InvoiceMatchesCharge(c: Config, amountPaise: int)
    ensures var f := CalculateFee(c, amountPaise as real / 100.0);
      AmountInPaise(TotalPayable(c, amountPaise as real / 100.0)) - amountPaise == f.taxable + f.cgst + f.sgst
  {
    ChargedExactly(c, amountPaise, TotalPayable(c, amountPaise as real / 100.0));
    SplitAddsUp(GrossFee(c, amountPaise as real / 100.0));
  }
}
