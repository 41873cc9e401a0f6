/** The payment estimator of the "Quick estimate" widget: the fixed-rate
    amortisation formula, computed over exact reals, and what it means for a
    loan that is repaid in equal monthly instalments. */
module Estimator {

  /** x to the power n; the model of Math.pow for the natural exponents the
      estimator uses. */
  function Pow(x: real, n: nat): (p: real)
  {
    if n == 0 then 1.0 else x * Pow(x, n - 1)
  }

  /** The sum of x^j for j < n, accumulated the way a balance grows: each
      month the running sum is multiplied by x and one more unit is added. */
  function Annuity(x: real, n: nat): (a: real)
  {
    if n == 0 then 0.0 else Annuity(x, n - 1) * x + 1.0
  }

  /** The monthly interest rate for an annual rate given in percent. */
  function MonthlyRate(annualRate: real): (r: real)
  {
    annualRate / 100.0 / 12.0
  }

  /** The number of monthly payments in a term of whole years. */
  function NumPayments(years: nat): (n: nat)
  {
    years * 12
  }

  /** The divisor of the compound formula: (1 + r)^n - 1. */
  function Bottom(annualRate: real, years: nat): (b: real)
  {
    Pow(1.0 + MonthlyRate(annualRate), NumPayments(years)) - 1.0
  }

  /** The inputs for which the formula's divisions are defined: at least one
      year, and a non-zero bottom term whenever the compound branch is taken. */
  predicate Defined(annualRate: real, years: int)
  {
    years >= 1 && (MonthlyRate(annualRate) != 0.0 ==> Bottom(annualRate, years) != 0.0)
  }

  /** The estimated monthly payment. With a zero rate the principal is split
      evenly over the payments; otherwise the amortisation formula is used. */
  function MonthlyPayment(principal: real, annualRate: real, years: int): (m: real)
    requires Defined(annualRate, years)
    ensures MonthlyRate(annualRate) == 0.0 ==> m * (NumPayments(years) as real) == principal
  {
    var r := MonthlyRate(annualRate);
    var n := NumPayments(years);
    if r == 0.0 then
      principal / (n as real)
    else
      var top := r * Pow(1.0 + r, n);
      var bottom := Bottom(annualRate, years);
      principal * (top / bottom)
  }

  /** The total payable: the monthly payment times the number of months. Paid
      in equal instalments it clears the loan exactly; it is the principal
      itself at a zero rate and more than the principal at a positive rate. */
  function TotalPayable(principal: real, annualRate: real, years: int): (t: real)
    requires Defined(annualRate, years)
    ensures t == MonthlyPayment(principal, annualRate, years) * (NumPayments(years) as real)
    ensures Balance(principal, MonthlyRate(annualRate), t / (NumPayments(years) as real), NumPayments(years)) == 0.0
    ensures MonthlyRate(annualRate) == 0.0 ==> t == principal
    ensures principal > 0.0 && annualRate > 0.0 ==> t > principal
  {
    var m := MonthlyPayment(principal, annualRate, years);
    var t := m * (years as real) * 12.0;
    DivideBack(m, NumPayments(years) as real, t);
    PaymentRepaysLoan(principal, annualRate, years, m);
    if principal > 0.0 && annualRate > 0.0 then
      PaymentsExceedPrincipal(principal, annualRate, years);
      t
    else
      t
  }

  /** The outstanding balance of a loan of `principal` after k months, when each
      month interest at rate r accrues on the balance and then `payment` is paid. */
  function Balance(principal: real, r: real, payment: real, k: nat): (b: real)
  {
    if k == 0 then principal else Balance(principal, r, payment, k - 1) * (1.0 + r) - payment
  }

  // ---------------------------------------------------------------------------
  // Real arithmetic, one non-linear step per lemma

  lemma MulGreater(a: real, b: real, c: real)
    requires a > 1.0 && b > 0.0 && c == a * b
    ensures c > b
  {
  }

  lemma DivideBack(m: real, n: real, t: real)
    requires n > 0.0 && t == m * n
    ensures t / n == m
  {
  }

  lemma GeometricStep(x: real, a: real, p: real, a': real, p': real)
    requires (x - 1.0) * a == p - 1.0 && a' == a * x + 1.0 && p' == x * p
    ensures (x - 1.0) * a' == p' - 1.0
  {
    assert (x - 1.0) * a' == x * ((x - 1.0) * a) + x - 1.0;
  }

  lemma DivByUnitRatio(principal: real, q: real, a: real)
    requires q == 1.0 && a != 0.0
    ensures principal / a == principal * (q / a)
  {
  }

  lemma MulPositive(a: real, b: real, c: real)
    requires a > 0.0 && b > 0.0 && c == a * b
    ensures c > 0.0
  {
  }

  lemma ScaleLess(k: real, u: real, v: real, a: real, b: real)
    requires k > 0.0 && u < v && a == k * u && b == k * v
    ensures a < b
  {
  }

  lemma BalanceStep(principal: real, payment: real, x: real, p: real, a: real, b: real)
    requires b == principal * p - payment * a
    ensures b * x - payment == principal * (x * p) - payment * (a * x + 1.0)
  {
  }

  lemma CancelCommon(principal: real, r: real, q: real, a: real)
    requires r != 0.0 && q - 1.0 == r * a && q - 1.0 != 0.0
    ensures a != 0.0
    ensures principal * ((r * q) / (q - 1.0)) == principal * (q / a)
  {
    var f := q / a;
    assert q == f * a;
    assert r * q == f * (r * a);
  }

  lemma SolveLinear(principal: real, q: real, a: real, payment: real)
    requires a != 0.0
    ensures principal * q - payment * a == 0.0 <==> payment == principal * (q / a)
  {
    var f := q / a;
    assert q == f * a;
    assert principal * q - payment * a == (principal * f - payment) * a;
  }

  // ---------------------------------------------------------------------------
  // Powers and annuities

  lemma {:induction false} PowPositive(x: real, n: nat)
    requires x > 0.0
    ensures Pow(x, n) > 0.0
  {
    if n > 0 {
      PowPositive(x, n - 1);
    }
  }

  lemma {:induction false} PowOfOne(n: nat)
    ensures Pow(1.0, n) == 1.0
  {
    if n > 0 {
      PowOfOne(n - 1);
    }
  }

  /** For a growth factor above one, powers grow strictly with the exponent. */
  lemma {:induction false} PowStrictlyIncreasing(x: real, m: nat, n: nat)
    requires x > 1.0 && m < n
    ensures Pow(x, m) < Pow(x, n)
  {
    PowPositive(x, n - 1);
    MulGreater(x, Pow(x, n - 1), Pow(x, n));
    if m < n - 1 {
      PowStrictlyIncreasing(x, m, n - 1);
    }
  }

  /** Exponents add: x^(m + n) == x^m * x^n, for known values of both factors. */
  lemma {:induction false} PowSplit(x: real, m: nat, n: nat, a: real, b: real)
    requires Pow(x, m) == a && Pow(x, n) == b
    ensures Pow(x, m + n) == a * b
  {
    if n > 0 {
      PowSplit(x, m, n - 1, a, Pow(x, n - 1));
      assert Pow(x, m + n) == x * Pow(x, m + n - 1);
    }
  }

  lemma PowAboveOne(x: real, n: nat)
    requires x > 1.0 && n >= 1
    ensures Pow(x, n) > 1.0
  {
    PowStrictlyIncreasing(x, 0, n);
  }

  lemma {:induction false} AnnuityOfOne(n: nat)
    ensures Annuity(1.0, n) == n as real
  {
    if n > 0 {
      AnnuityOfOne(n - 1);
    }
  }

  /** The geometric-series identity: (x - 1) * (x^0 + ... + x^(n-1)) == x^n - 1. */
  lemma {:induction false} AnnuityGeometric(x: real, n: nat)
    ensures (x - 1.0) * Annuity(x, n) == Pow(x, n) - 1.0
  {
    if n > 0 {
      AnnuityGeometric(x, n - 1);
      GeometricStep(x, Annuity(x, n - 1), Pow(x, n - 1), Annuity(x, n), Pow(x, n));
    }
  }

  /** With a positive growth factor and at least one month, the annuity is at least one. */
  lemma {:induction false} AnnuityAtLeastOne(x: real, n: nat)
    requires x > 0.0 && n >= 1
    ensures Annuity(x, n) >= 1.0
  {
    if n > 1 {
      AnnuityAtLeastOne(x, n - 1);
      assert Annuity(x, n - 1) * x > 0.0;
    }
  }

  /** With interest, the annuity of n months is less than n times the final
      growth x^n: every earlier power is smaller. */
  lemma {:induction false} AnnuityBelowPower(x: real, n: nat)
    requires x > 1.0 && n >= 1
    ensures Annuity(x, n) < (n as real) * Pow(x, n)
  {
    if n > 1 {
      AnnuityBelowPower(x, n - 1);
      PowAboveOne(x, n);
      var a, p := Annuity(x, n - 1), Pow(x, n - 1);
      assert a * x < ((n - 1) as real) * p * x;
      assert p * x == Pow(x, n);
    }
  }

  /** The payment per unit of principal for n months at growth factor x:
      x^n / Annuity(x, n). */
  function PaymentRatio(x: real, n: nat): (f: real)
    requires x > 0.0 && n >= 1
    ensures f > 0.0
  {
    AnnuityAtLeastOne(x, n);
    PowPositive(x, n);
    Pow(x, n) / Annuity(x, n)
  }

  /** a / b < c / d for positive b and d, from the cross-multiplied inequality. */
  lemma QuotientLess(a: real, b: real, c: real, d: real)
    requires b > 0.0 && d > 0.0 && a * d < c * b
    ensures a / b < c / d
  {
    var u, v := a / b, c / d;
    assert a == u * b && c == v * d;
    assert (u - v) * (b * d) < 0.0 by {
      assert u * b * d < v * d * b;
    }
  }

  /** One more month strictly lowers the payment ratio. */
  lemma PaymentRatioStep(x: real, n: nat)
    requires x > 0.0 && n >= 1
    ensures PaymentRatio(x, n + 1) < PaymentRatio(x, n)
  {
    PowPositive(x, n);
    AnnuityAtLeastOne(x, n);
    AnnuityAtLeastOne(x, n + 1);
    var p, a := Pow(x, n), Annuity(x, n);
    assert Pow(x, n + 1) * a == x * p * a;
    assert p * Annuity(x, n + 1) == x * p * a + p;
    QuotientLess(Pow(x, n + 1), Annuity(x, n + 1), p, a);
  }

  /** The payment ratio falls strictly as the number of months grows. */
  lemma {:induction false} PaymentRatioDecreasing(x: real, m: nat, n: nat)
    requires x > 0.0 && 1 <= m < n
    ensures PaymentRatio(x, n) < PaymentRatio(x, m)
  {
    PaymentRatioStep(x, n - 1);
    if m < n - 1 {
      PaymentRatioDecreasing(x, m, n - 1);
    }
  }

  // ---------------------------------------------------------------------------
  // The amortisation formula

  /** Any loan balance is the grown principal less the grown payments. */
  lemma {:induction false} BalanceClosedForm(principal: real, r: real, payment: real, k: nat)
    ensures Balance(principal, r, payment, k)
         == principal * Pow(1.0 + r, k) - payment * Annuity(1.0 + r, k)
  {
    if k > 0 {
      BalanceClosedForm(principal, r, payment, k - 1);
      var x := 1.0 + r;
      BalanceStep(principal, payment, x, Pow(x, k - 1), Annuity(x, k - 1),
                  Balance(principal, r, payment, k - 1));
    }
  }

  /** The bottom term is the monthly rate times the annuity. */
  lemma BottomByAnnuity(annualRate: real, years: nat)
    ensures Bottom(annualRate, years)
         == MonthlyRate(annualRate) * Annuity(1.0 + MonthlyRate(annualRate), NumPayments(years))
  {
    var r := MonthlyRate(annualRate);
    AnnuityGeometric(1.0 + r, NumPayments(years));
    assert (1.0 + r) - 1.0 == r;
  }

  /** The flat branch of the estimator, for a zero monthly rate. */
  lemma FlatPayment(principal: real, annualRate: real, years: int)
    requires Defined(annualRate, years) && MonthlyRate(annualRate) == 0.0
    ensures MonthlyPayment(principal, annualRate, years) == principal / (NumPayments(years) as real)
  {
  }

  /** The compound branch of the estimator, for a non-zero monthly rate. */
  lemma CompoundPayment(principal: real, annualRate: real, years: int)
    requires Defined(annualRate, years) && MonthlyRate(annualRate) != 0.0
    ensures MonthlyPayment(principal, annualRate, years)
         == principal * ((MonthlyRate(annualRate) * Pow(1.0 + MonthlyRate(annualRate), NumPayments(years)))
                         / Bottom(annualRate, years))
  {
  }

  /** Both branches of the estimator compute principal * (x^n / Annuity(x, n)),
      where x = 1 + r is the monthly growth factor; the annuity is non-zero. */
  lemma PaymentByAnnuity(principal: real, annualRate: real, years: int)
    requires Defined(annualRate, years)
    ensures Annuity(1.0 + MonthlyRate(annualRate), NumPayments(years)) != 0.0
    ensures MonthlyPayment(principal, annualRate, years)
         == principal * (Pow(1.0 + MonthlyRate(annualRate), NumPayments(years))
                         / Annuity(1.0 + MonthlyRate(annualRate), NumPayments(years)))
  {
    var r, n := MonthlyRate(annualRate), NumPayments(years);
    var q, a := Pow(1.0 + r, n), Annuity(1.0 + r, n);
    if r == 0.0 {
      PowOfOne(n);
      AnnuityOfOne(n);
      FlatPayment(principal, annualRate, years);
      DivByUnitRatio(principal, q, a);
    } else {
      BottomByAnnuity(annualRate, years);
      CompoundPayment(principal, annualRate, years);
      CancelCommon(principal, r, q, a);
    }
  }

  /** The estimator's payment repays the loan exactly: after the last of the n
      monthly payments the balance is zero, and it is the only payment that
      does so. */
  lemma PaymentRepaysLoan(principal: real, annualRate: real, years: int, payment: real)
    requires Defined(annualRate, years)
    ensures Balance(principal, MonthlyRate(annualRate), payment, NumPayments(years)) == 0.0
        <==> payment == MonthlyPayment(principal, annualRate, years)
  {
    var r, n := MonthlyRate(annualRate), NumPayments(years);
    var q, a := Pow(1.0 + r, n), Annuity(1.0 + r, n);
    BalanceClosedForm(principal, r, payment, n);
    PaymentByAnnuity(principal, annualRate, years);
    SolveLinear(principal, q, a, payment);
  }

  /** With a zero rate the payment is the principal split evenly over the months. */
  lemma ZeroRatePayment(principal: real, years: int)
    requires years >= 1
    ensures MonthlyPayment(principal, 0.0, years) == principal / ((years * 12) as real)
  {
  }

  /** A positive annual rate makes the bottom term strictly positive. */
  lemma BottomPositive(annualRate: real, years: int)
    requires annualRate > 0.0 && years >= 1
    ensures Bottom(annualRate, years) > 0.0
  {
    PowAboveOne(1.0 + MonthlyRate(annualRate), NumPayments(years));
  }

  /** The formula is defined for every term of at least one year whenever the
      monthly growth factor 1 + r is positive, so for every rate the slider
      offers. */
  lemma DefinedForPositiveGrowth(annualRate: real, years: int)
    requires annualRate > -1200.0 && years >= 1
    ensures Defined(annualRate, years)
  {
    var r, n := MonthlyRate(annualRate), NumPayments(years);
    AnnuityGeometric(1.0 + r, n);
    AnnuityAtLeastOne(1.0 + r, n);
    if r != 0.0 {
      assert Bottom(annualRate, years) == r * Annuity(1.0 + r, n);
    }
  }

  /** A positive principal gives a positive payment. */
  lemma PaymentPositive(principal: real, annualRate: real, years: int)
    requires principal > 0.0 && annualRate > -1200.0 && years >= 1
    ensures Defined(annualRate, years)
    ensures MonthlyPayment(principal, annualRate, years) > 0.0
  {
    UnitPayment(annualRate, years);
    PaymentProportional(principal, annualRate, years);
    MulPositive(principal, MonthlyPayment(1.0, annualRate, years), MonthlyPayment(principal, annualRate, years));
  }

  /** The payment is proportional to the principal. */
  lemma PaymentProportional(principal: real, annualRate: real, years: int)
    requires Defined(annualRate, years)
    ensures MonthlyPayment(principal, annualRate, years)
         == principal * MonthlyPayment(1.0, annualRate, years)
  {
    PaymentByAnnuity(principal, annualRate, years);
    PaymentByAnnuity(1.0, annualRate, years);
  }

  /** Holding term and rate fixed, a larger principal gives a strictly larger payment. */
  lemma PaymentIncreasingInPrincipal(p1: real, p2: real, annualRate: real, years: int)
    requires p1 < p2 && annualRate > -1200.0 && years >= 1
    ensures Defined(annualRate, years)
    ensures MonthlyPayment(p1, annualRate, years) < MonthlyPayment(p2, annualRate, years)
  {
    PaymentPositive(1.0, annualRate, years);
    PaymentProportional(p1, annualRate, years);
    PaymentProportional(p2, annualRate, years);
  }

  /** For a positive growth factor, the payment on a unit principal is the
      payment ratio x^n / Annuity(x, n). */
  lemma UnitPayment(annualRate: real, years: int)
    requires annualRate > -1200.0 && years >= 1
    ensures Defined(annualRate, years)
    ensures MonthlyPayment(1.0, annualRate, years)
         == PaymentRatio(1.0 + MonthlyRate(annualRate), NumPayments(years))
  {
    DefinedForPositiveGrowth(annualRate, years);
    PaymentByAnnuity(1.0, annualRate, years);
  }

  /** Holding principal and rate fixed, a longer term gives a strictly smaller payment. */
  lemma PaymentDecreasingInTerm(principal: real, annualRate: real, y1: int, y2: int)
    requires principal > 0.0 && annualRate > -1200.0 && 1 <= y1 < y2
    ensures Defined(annualRate, y1) && Defined(annualRate, y2)
    ensures MonthlyPayment(principal, annualRate, y2) < MonthlyPayment(principal, annualRate, y1)
  {
    UnitPayment(annualRate, y1);
    UnitPayment(annualRate, y2);
    PaymentRatioDecreasing(1.0 + MonthlyRate(annualRate), NumPayments(y1), NumPayments(y2));
    PaymentProportional(principal, annualRate, y1);
    PaymentProportional(principal, annualRate, y2);
    ScaleLess(principal, MonthlyPayment(1.0, annualRate, y2), MonthlyPayment(1.0, annualRate, y1),
              MonthlyPayment(principal, annualRate, y2), MonthlyPayment(principal, annualRate, y1));
  }

  /** Without interest the total payable is the principal; with a positive rate
      and a positive principal it is strictly more. */
  lemma TotalCoversPrincipal(principal: real, annualRate: real, years: int)
    requires principal > 0.0 && annualRate >= 0.0 && years >= 1
    ensures Defined(annualRate, years)
    ensures annualRate == 0.0 ==> TotalPayable(principal, annualRate, years) == principal
    ensures annualRate > 0.0 ==> TotalPayable(principal, annualRate, years) > principal
  {
    DefinedForPositiveGrowth(annualRate, years);
  }

  /** At a positive rate the n payments together exceed a positive principal. */
  lemma PaymentsExceedPrincipal(principal: real, annualRate: real, years: int)
    requires Defined(annualRate, years) && principal > 0.0 && annualRate > 0.0
    ensures MonthlyPayment(principal, annualRate, years) * (NumPayments(years) as real) > principal
  {
    var x, n := 1.0 + MonthlyRate(annualRate), NumPayments(years);
    PaymentByAnnuity(principal, annualRate, years);
    AnnuityBelowPower(x, n);
    AnnuityAtLeastOne(x, n);
    var q, a := Pow(x, n), Annuity(x, n);
    assert MonthlyPayment(principal, annualRate, years) * (n as real) == principal * ((n as real) * q / a);
    QuotientLess(1.0, 1.0, (n as real) * q, a);
    assert (n as real) * q / a > 1.0;
  }

  /** The repayment example's default quote: borrowing 50,000 for 3 years at
      12.5% gives a monthly payment that rounds to 1,673 and a total that
      rounds to 60,217. */
  lemma DefaultQuote()
    ensures Defined(12.5, 3)
    ensures 1672.5 <= MonthlyPayment(50000.0, 12.5, 3) < 1673.5
    ensures 60216.5 <= TotalPayable(50000.0, 12.5, 3) < 60217.5
  {
    var x := 97.0 / 96.0;
    assert 1.0 + MonthlyRate(12.5) == x;
    var x2 := x * x;
    PowSplit(x, 1, 1, x, x);
    var x4 := x2 * x2;
    PowSplit(x, 2, 2, x2, x2);
    var x8 := x4 * x4;
    PowSplit(x, 4, 4, x4, x4);
    var x16 := x8 * x8;
    PowSplit(x, 8, 8, x8, x8);
    var x32 := x16 * x16;
    PowSplit(x, 16, 16, x16, x16);
    var x36 := x32 * x4;
    PowSplit(x, 32, 4, x32, x4);
    assert Pow(x, NumPayments(3)) == x36;
    BottomPositive(12.5, 3);
    CompoundPayment(50000.0, 12.5, 3);
  }
}
