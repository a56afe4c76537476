/**
 The four underwriting metric calculators: Net Operating Income, Debt Service
 Coverage Ratio, Loan-to-Value and Capitalization Rate.

 Each calculator first rejects an absent argument, then (for the three
 ratios) a zero divisor, and only then computes. NOI is returned exactly; the
 ratios are rounded half to even to two decimal places. Arguments are exact
 reals rather than binary floats.
 */
module FinancialMetrics {
  import opened MetricResults
  import opened Rounding

  /** Net Operating Income: gross rental income less operating expenses,
      unrounded and of either sign. */
  function Noi(grossRentalIncome: Option<real>, operatingExpenses: Option<real>): (r: Result<real>)
    ensures r.Err? <==> grossRentalIncome.None? || operatingExpenses.None?
    ensures r.Err? ==> r.error == MissingInput
    ensures r.Ok? ==> r.value + operatingExpenses.value == grossRentalIncome.value
  {
    if grossRentalIncome.None? || operatingExpenses.None? then Err(MissingInput)
    else Ok(grossRentalIncome.value - operatingExpenses.value)
  }

  /** The checks shared by the three ratio calculators, in the order they
      run: absence first, a zero divisor second, and only then the exact
      quotient. */
  function Quotient(numerator: Option<real>, denominator: Option<real>): (r: Result<real>)
    ensures r == Err(MissingInput) <==> numerator.None? || denominator.None?
    ensures r == Err(ZeroDenominator) <==> numerator.Some? && denominator.Some? && denominator.value == 0.0
    ensures r.Ok? ==> r.value * denominator.value == numerator.value
  {
    if numerator.None? || denominator.None? then Err(MissingInput)
    else if denominator.value == 0.0 then Err(ZeroDenominator)
    else Ok(numerator.value / denominator.value)
  }

  /** Debt Service Coverage Ratio: NOI over annual debt service, a unitless
      ratio rounded to two decimal places. */
  function Dscr(netOperatingIncome: Option<real>, annualDebtService: Option<real>): (r: Result<real>)
    ensures r == Err(MissingInput) <==> netOperatingIncome.None? || annualDebtService.None?
    ensures r == Err(ZeroDenominator) <==>
      netOperatingIncome.Some? && annualDebtService.Some? && annualDebtService.value == 0.0
    ensures r.Ok? ==> IsRound2Of(netOperatingIncome.value / annualDebtService.value, r.value)
  {
    match Quotient(netOperatingIncome, annualDebtService)
    case Err(e) => Err(e)
    case Ok(q) => Ok(Round2(q))
  }

  /** Loan-to-Value: loan amount over purchase price, as a percentage rounded
      to two decimal places. */
  function Ltv(loanAmount: Option<real>, purchasePrice: Option<real>): (r: Result<real>)
    ensures r == Err(MissingInput) <==> loanAmount.None? || purchasePrice.None?
    ensures r == Err(ZeroDenominator) <==>
      loanAmount.Some? && purchasePrice.Some? && purchasePrice.value == 0.0
    ensures r.Ok? ==> IsRound2Of(loanAmount.value / purchasePrice.value * 100.0, r.value)
  {
    match Quotient(loanAmount, purchasePrice)
    case Err(e) => Err(e)
    case Ok(q) => Ok(Round2(q * 100.0))
  }

  /** Capitalization Rate: NOI over purchase price, as a percentage rounded to
      two decimal places. */
  function CapRate(netOperatingIncome: Option<real>, purchasePrice: Option<real>): (r: Result<real>)
    ensures r == Err(MissingInput) <==> netOperatingIncome.None? || purchasePrice.None?
    ensures r == Err(ZeroDenominator) <==>
      netOperatingIncome.Some? && purchasePrice.Some? && purchasePrice.value == 0.0
    ensures r.Ok? ==> IsRound2Of(netOperatingIncome.value / purchasePrice.value * 100.0, r.value)
  {
    match Quotient(netOperatingIncome, purchasePrice)
    case Err(e) => Err(e)
    case Ok(q) => Ok(Round2(q * 100.0))
  }

  /** A successful DSCR is the one two-decimal half-even rounding of the exact
      coverage ratio: any candidate meeting that description is the result. */
  lemma DscrDeterminedByRounding(noi: real, debtService: real, c: real)
    requires debtService != 0.0
    requires IsRound2Of(noi / debtService, c)
    ensures Dscr(Some(noi), Some(debtService)) == Ok(c)
  {
    var k := (c * 100.0).Floor;
    assert k as real == c * 100.0;
    Round2Characterized(noi / debtService, k);
  }

  /** Likewise a successful LTV or Cap Rate is the one two-decimal half-even
      rounding of the exact percentage. */
  lemma PercentDeterminedByRounding(numerator: real, purchasePrice: real, c: real)
    requires purchasePrice != 0.0
    requires IsRound2Of(numerator / purchasePrice * 100.0, c)
    ensures Ltv(Some(numerator), Some(purchasePrice)) == Ok(c)
    ensures CapRate(Some(numerator), Some(purchasePrice)) == Ok(c)
  {
    var k := (c * 100.0).Floor;
    assert k as real == c * 100.0;
    Round2Characterized(numerator / purchasePrice * 100.0, k);
  }

  /** An absent argument is reported as missing even when the other argument
      is a zero divisor, and an absent divisor is never reported as zero. */
  lemma MissingInputBeforeZeroDenominator(x: Option<real>)
    ensures Dscr(x, None) == Err(MissingInput) && Dscr(None, Some(0.0)) == Err(MissingInput)
    ensures Ltv(x, None) == Err(MissingInput) && Ltv(None, Some(0.0)) == Err(MissingInput)
    ensures CapRate(x, None) == Err(MissingInput) && CapRate(None, Some(0.0)) == Err(MissingInput)
  {
  }

  /** Absence and a zero divisor are the only failures: present arguments
      with a nonzero divisor always succeed, whatever the numerator's sign. */
  lemma PresentInputsSucceed(a: real, b: real, d: real)
    requires d != 0.0
    ensures Noi(Some(a), Some(b)).Ok?
    ensures Dscr(Some(a), Some(d)).Ok? && Ltv(Some(a), Some(d)).Ok? && CapRate(Some(a), Some(d)).Ok?
  {
  }

  /** Every ratio result already has two decimal places, so rounding it again
      changes nothing. */
  lemma RatioResultsStable(a: Option<real>, b: Option<real>)
    ensures Dscr(a, b).Ok? ==> Round2(Dscr(a, b).value) == Dscr(a, b).value
    ensures Ltv(a, b).Ok? ==> Round2(Ltv(a, b).value) == Ltv(a, b).value
    ensures CapRate(a, b).Ok? ==> Round2(CapRate(a, b).value) == CapRate(a, b).value
  {
    if Dscr(a, b).Ok? { Round2FixesCents(Dscr(a, b).value); }
    if Ltv(a, b).Ok? { Round2FixesCents(Ltv(a, b).value); }
    if CapRate(a, b).Ok? { Round2FixesCents(CapRate(a, b).value); }
  }

  /** With positive debt service, more income never gives a lower DSCR. */
  lemma DscrMonotoneInNoi(noi1: real, noi2: real, debtService: real)
    requires 0.0 < debtService && noi1 <= noi2
    ensures Dscr(Some(noi1), Some(debtService)).value <= Dscr(Some(noi2), Some(debtService)).value
  {
    assert noi1 / debtService <= noi2 / debtService by {
      assert noi1 / debtService * debtService == noi1;
      assert noi2 / debtService * debtService == noi2;
    }
    Round2Monotone(noi1 / debtService, noi2 / debtService);
  }

  /** A loan no larger than the (positive) purchase price has an LTV between
      0% and 100%. */
  lemma LtvWithinPercentRange(loanAmount: real, purchasePrice: real)
    requires 0.0 <= loanAmount <= purchasePrice && 0.0 < purchasePrice
    ensures 0.0 <= Ltv(Some(loanAmount), Some(purchasePrice)).value <= 100.0
  {
    var q := loanAmount / purchasePrice * 100.0;
    assert 0.0 <= q <= 100.0 by {
      assert loanAmount / purchasePrice * purchasePrice == loanAmount;
    }
    Round2Monotone(0.0, q);
    Round2Monotone(q, 100.0);
    Round2FixesCents(0.0);
    Round2FixesCents(100.0);
  }
}
