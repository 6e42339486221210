/** The financial calculator: equated monthly instalment and percentage.
    Python floats are modelled as exact reals. */
module Financial {
  import opened Outcomes

  /** x raised to a natural power, over the reals. */
  function RealPow(x: real, n: nat): real
  {
    if n == 0 then 1.0 else x * RealPow(x, n - 1)
  }

  /** The monthly rate of an annual percentage: ann / (12 * 100). */
  function MonthlyRate(annInterest: real): (r: real)
    ensures 1200.0 * r == annInterest
    ensures r > 0.0 <==> annInterest > 0.0
  {
    annInterest / 1200.0
  }

  /** Compound growth at a non-negative rate never shrinks, and grows by
      at least the rate after one or more periods. */
  lemma {:induction false} GrowthAtLeastRate(rate: real, n: nat)
    requires rate >= 0.0
    ensures RealPow(1.0 + rate, n) >= 1.0
    ensures n >= 1 ==> RealPow(1.0 + rate, n) >= 1.0 + rate
  {
    if n > 0 {
      GrowthAtLeastRate(rate, n - 1);
      var p := RealPow(1.0 + rate, n - 1);
      assert RealPow(1.0 + rate, n) == p + rate * p;
      assert rate * p >= rate * 1.0;
    }
  }

  /** Growth beyond 1 over n periods is at most n periods' interest on
      the final amount: a - 1 <= n * rate * a. */
  lemma {:induction false} GrowthBoundedByInterest(rate: real, n: nat)
    requires rate >= 0.0
    ensures RealPow(1.0 + rate, n) - 1.0 <= n as real * rate * RealPow(1.0 + rate, n)
  {
    if n > 0 {
      GrowthBoundedByInterest(rate, n - 1);
      GrowthAtLeastRate(rate, n - 1);
      var p := RealPow(1.0 + rate, n - 1);
      var a := RealPow(1.0 + rate, n);
      var k := (n - 1) as real;
      assert a == p + rate * p;
      assert p <= a by { assert rate * p >= 0.0; }
      assert k * rate * p <= k * rate * a by {
        assert k * rate >= 0.0;
      }
      calc {
        a - 1.0;
        == (p - 1.0) + rate * p;
        <= k * rate * p + rate * p;
        <= k * rate * a + rate * a;
        == n as real * rate * a;
      }
    }
  }

  /** `emi_calculator`: ValueError for a non-positive loan or duration or
      a negative rate; otherwise r = ann / 1200, a = (1 + r) ** months and
      EMI = loan * r * a / (a - 1), which raises ZeroDivisionError when
      a - 1 is zero, that is, exactly when the rate is zero.  The
      instalment solves EMI * (a - 1) == loan * r * a, is more than a
      month's interest on the loan and at most the loan plus that
      interest. */
  function EmiCalculator(loan: real, annInterest: real, months: int): (r: Result<real>)
    ensures r == Failure(ValueError) <==> loan <= 0.0 || months <= 0 || annInterest < 0.0
    ensures r == Failure(ZeroDivisionError) <==> loan > 0.0 && months > 0 && annInterest == 0.0
    ensures r.Success? <==> loan > 0.0 && months > 0 && annInterest > 0.0
    ensures r.Success? ==>
      var rate := MonthlyRate(annInterest);
      var a := RealPow(1.0 + rate, months);
      r.value * (a - 1.0) == loan * rate * a &&
      loan * rate < r.value <= loan * (1.0 + rate)
  {
    if loan <= 0.0 || months <= 0 || annInterest < 0.0 then
      Failure(ValueError)
    else
      var rate := MonthlyRate(annInterest);
      var a := RealPow(1.0 + rate, months);
      var n := loan * rate * a;
      GrowthVanishesAtZeroRate(rate, months);
      if a - 1.0 == 0.0 then
        Failure(ZeroDivisionError)
      else
        var emi := n / (a - 1.0);
        assert emi * (a - 1.0) == n;
        EmiBounds(loan, rate, months, emi);
        Success(emi)
  }

  /** Over one or more months, a - 1 is zero exactly when the rate is. */
  lemma GrowthVanishesAtZeroRate(rate: real, months: nat)
    requires rate >= 0.0 && months > 0
    ensures RealPow(1.0 + rate, months) - 1.0 == 0.0 <==> rate == 0.0
  {
    GrowthAtLeastRate(rate, months);
    if rate == 0.0 {
      OnePowIsOne(months);
    }
  }

  /** Any instalment that solves the EMI equation at a positive rate lies
      between one month's interest (exclusive) and the loan plus one
      month's interest (inclusive). */
  lemma EmiBounds(loan: real, rate: real, months: nat, emi: real)
    requires loan > 0.0 && rate > 0.0 && months > 0
    requires emi * (RealPow(1.0 + rate, months) - 1.0) == loan * rate * RealPow(1.0 + rate, months)
    ensures loan * rate < emi <= loan * (1.0 + rate)
  {
    GrowthAtLeastRate(rate, months);
    EmiBoundsByGrowth(loan, rate, RealPow(1.0 + rate, months), emi);
  }

  /** The algebra behind EmiBounds, for any growth factor a >= 1 + rate. */
  lemma EmiBoundsByGrowth(loan: real, rate: real, a: real, emi: real)
    requires loan > 0.0 && rate > 0.0 && a >= 1.0 + rate
    requires emi * (a - 1.0) == loan * rate * a
    ensures loan * rate < emi <= loan * (1.0 + rate)
  {
    var d := a - 1.0;
    assert d >= rate > 0.0;
    // emi > loan * rate because a > a - 1
    assert loan * rate * a > loan * rate * d by {
      assert loan * rate > 0.0;
    }
    CancelPositiveFactor(loan * rate, emi, d);
    // emi <= loan * (1 + rate) because rate * a <= (1 + rate) * (a - 1)
    assert rate * a <= (1.0 + rate) * d;
    assert emi * d <= loan * (1.0 + rate) * d by {
      assert loan * (rate * a) <= loan * ((1.0 + rate) * d);
    }
    CancelPositiveFactor(emi, loan * (1.0 + rate), d);
  }

  /** A positive common factor can be cancelled from both sides of < and <=. */
  lemma CancelPositiveFactor(u: real, v: real, d: real)
    requires d > 0.0
    ensures u * d < v * d ==> u < v
    ensures u * d <= v * d ==> u <= v
  {
  }

  lemma {:induction false} OnePowIsOne(n: nat)
    ensures RealPow(1.0, n) == 1.0
  {
    if n > 0 {
      OnePowIsOne(n - 1);
    }
  }

  /** Outstanding balance after k monthly payments of `payment`: each
      month the balance accrues interest at `rate`, then one payment is
      taken off. */
  function Balance(loan: real, rate: real, payment: real, k: nat): real
  {
    if k == 0 then loan else Balance(loan, rate, payment, k - 1) * (1.0 + rate) - payment
  }

  /** The balance after k payments in closed form, scaled by the rate. */
  lemma {:induction false} BalanceClosedForm(loan: real, rate: real, payment: real, k: nat)
    ensures Balance(loan, rate, payment, k) * rate
         == loan * rate * RealPow(1.0 + rate, k) - payment * (RealPow(1.0 + rate, k) - 1.0)
  {
    if k > 0 {
      var b, p := Balance(loan, rate, payment, k - 1), RealPow(1.0 + rate, k - 1);
      var b', p' := Balance(loan, rate, payment, k), RealPow(1.0 + rate, k);
      assert b' * rate == loan * rate * p' - payment * (p' - 1.0) by {
        BalanceClosedForm(loan, rate, payment, k - 1);
        ClosedFormStep(loan, rate, payment, b, p, b', p');
      }
    }
  }

  /** One month of BalanceClosedForm: if balance b scaled by the rate has
      the closed form for growth p, then the next month's balance b' has
      it for the next growth p'. */
  lemma ClosedFormStep(loan: real, rate: real, payment: real, b: real, p: real, b': real, p': real)
    requires b * rate == loan * rate * p - payment * (p - 1.0)
    requires b' == b * (1.0 + rate) - payment && p' == (1.0 + rate) * p
    ensures b' * rate == loan * rate * p' - payment * (p' - 1.0)
  {
  }

  /** The instalment the calculator returns pays the loan off exactly:
      after `months` payments the outstanding balance is zero. */
  lemma EmiAmortises(loan: real, annInterest: real, months: int)
    requires EmiCalculator(loan, annInterest, months).Success?
    ensures Balance(loan, MonthlyRate(annInterest),
                    EmiCalculator(loan, annInterest, months).value, months) == 0.0
  {
    var rate := MonthlyRate(annInterest);
    var emi := EmiCalculator(loan, annInterest, months).value;
    BalanceClosedForm(loan, rate, emi, months);
    var b := Balance(loan, rate, emi, months);
    assert b * rate == 0.0;
    assert rate > 0.0;
  }

  /** The textbook instalment: a loan of 100000 at 10% a year over 12
      months is repaid at about 8791.59 a month. */
  lemma EmiExample()
    ensures EmiCalculator(100000.0, 10.0, 12).Success?
    ensures 8791.58 < EmiCalculator(100000.0, 10.0, 12).value < 8791.60
  {
  }

  /** Over the whole loan the instalments repay at least the principal. */
  lemma EmiCoversLoan(loan: real, annInterest: real, months: int)
    requires EmiCalculator(loan, annInterest, months).Success?
    ensures EmiCalculator(loan, annInterest, months).value * months as real >= loan
  {
    var rate := MonthlyRate(annInterest);
    var emi := EmiCalculator(loan, annInterest, months).value;
    var a := RealPow(1.0 + rate, months);
    var n := months as real;
    GrowthBoundedByInterest(rate, months);
    GrowthAtLeastRate(rate, months);
    var d := a - 1.0;
    assert d > 0.0;
    assert emi * n * d == n * (loan * rate * a);
    assert n * (loan * rate * a) >= loan * d by {
      assert loan * (n * rate * a) >= loan * d;
    }
    assert emi * n * d >= loan * d;
  }

  /** `percentage_calculator`: percentage * num / 100. */
  function PercentageCalculator(percentage: real, num: real): (r: real)
    ensures 100.0 * r == percentage * num
  {
    (percentage * num) / 100.0
  }

  /** One hundred percent of a number is the number, percentages of a
      number add up, the two arguments are interchangeable, and 50% of
      200 is 100. */
  lemma PercentageProperties(p: real, q: real, num: real)
    ensures PercentageCalculator(100.0, num) == num
    ensures PercentageCalculator(p + q, num) == PercentageCalculator(p, num) + PercentageCalculator(q, num)
    ensures PercentageCalculator(p, num) == PercentageCalculator(num, p)
    ensures PercentageCalculator(50.0, 200.0) == 100.0
  {
  }
}
