/**
 Concrete values for a sample loan: gross rental income 500,000, operating
 expenses 200,000, purchase price 4,000,000, loan amount 3,000,000 and annual
 debt service 250,000; together with the rounding of exact ties and the
 rejections of incomplete or degenerate inputs.
 */
module WorkedExample {
  import opened MetricResults
  import opened Rounding
  import opened FinancialMetrics

  lemma NoiExample()
    ensures Noi(Some(500000.0), Some(200000.0)) == Ok(300000.0)
  {
  }

  lemma DscrExample()
    ensures Dscr(Some(300000.0), Some(250000.0)) == Ok(1.2)
  {
    DscrDeterminedByRounding(300000.0, 250000.0, 1.2);
  }

  lemma LtvExample()
    ensures Ltv(Some(3000000.0), Some(4000000.0)) == Ok(75.0)
  {
    PercentDeterminedByRounding(3000000.0, 4000000.0, 75.0);
  }

  lemma CapRateExample()
    ensures CapRate(Some(300000.0), Some(4000000.0)) == Ok(7.5)
  {
    PercentDeterminedByRounding(300000.0, 4000000.0, 7.5);
  }

  /** The NOI computed from the income statement feeds the coverage ratio. */
  lemma CoverageFromIncomeExample()
    ensures Noi(Some(500000.0), Some(200000.0)).Ok?
    ensures Dscr(Some(Noi(Some(500000.0), Some(200000.0)).value), Some(250000.0)) == Ok(1.2)
  {
    NoiExample();
    DscrExample();
  }

  /** Exact ties go to an even number of cents, for either sign. The first
      four are also exact in binary. 2.675 is a tie only in exact arithmetic:
      the Python program stores it just below the tie and returns 2.67. */
  lemma HalfEvenTieExamples()
    ensures Round2(0.125) == 0.12
    ensures Round2(0.375) == 0.38
    ensures Round2(0.625) == 0.62
    ensures Round2(-0.125) == -0.12
    ensures Round2(2.675) == 2.68
  {
    Round2Characterized(0.125, 12);
    Round2Characterized(0.375, 38);
    Round2Characterized(0.625, 62);
    Round2Characterized(-0.125, -12);
    Round2Characterized(2.675, 268);
  }

  /** Rejections of the sample: a zero divisor, and an absent divisor that is
      reported as missing rather than zero. */
  lemma RejectionExamples()
    ensures Dscr(Some(300000.0), Some(0.0)) == Err(ZeroDenominator)
    ensures Ltv(Some(3000000.0), None) == Err(MissingInput)
    ensures CapRate(None, Some(0.0)) == Err(MissingInput)
    ensures Noi(Some(500000.0), None) == Err(MissingInput)
  {
  }
}
