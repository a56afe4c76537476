# Underwriting metric calculators

A Dafny model of the deterministic part of a commercial real-estate
credit-memo pipeline: the four calculators its financial-metrics agent calls
to turn a loan request into key underwriting metrics.

- **NOI** (net operating income) = gross rental income − operating expenses,
  returned exactly, of either sign.
- **DSCR** (debt service coverage ratio) = NOI / annual debt service, rounded
  to two decimal places.
- **LTV** (loan-to-value) = loan amount / purchase price × 100, rounded to two
  decimal places.
- **Cap Rate** (capitalization rate) = NOI / purchase price × 100, rounded to
  two decimal places.

Each calculator first rejects an absent argument (Python `None`), then, for
the three ratios, a zero divisor, and only then computes.

Files and modules:

- `metric_results.dfy` — `MetricResults`: `Option` for an argument that may
  be absent, `MetricError` (`MissingInput`, `ZeroDenominator`) and
  `Result` for what a calculator returns or raises.
- `rounding.dfy` — `Rounding`: `Round2`, Python's `round(x, 2)` on exact
  values (round half to even), characterised as the unique nearest
  two-decimal value with ties to an even number of cents, with its
  idempotence, monotonicity and sign symmetry.
- `financial_metrics.dfy` — `FinancialMetrics`: the four calculators, the
  validation they share (`Quotient`), and lemmas on error precedence,
  totality, stability under re-rounding and ordering.
- `worked_example.dfy` — `WorkedExample`: the values for a sample loan and
  for exact rounding ties.

The calculators raise one exception type (`ValueError`) for both rejections
and tell them apart only by message; the model keeps the two causes as
distinct `MetricError` values. Python's `round` rounds an exact tie half to
even, which is what `Round2` does.

## Model

| member | source | states |
|---|---|---|
| Rounding.RoundHalfEven | agents/subagents/financial_metrics_agent/tools.py:33-51 | the integer returned is within one half of its argument, and is even when the argument lies exactly halfway between two integers |
| Rounding.HalfEvenRoundingUnique | agents/subagents/financial_metrics_agent/tools.py:33-51 | a real has only one half-to-even rounding, so the rounding rule leaves no choice |
| Rounding.Round2 | agents/subagents/financial_metrics_agent/tools.py:33-51 | rounding to two places yields a whole number of cents, at most half a cent from the input, with an exact half-cent tie landing on an even number of cents |
| Rounding.Round2Characterized | agents/subagents/financial_metrics_agent/tools.py:33-51 | any whole-cent value that meets the half-to-even rule for an input is exactly what rounding returns for it |
| Rounding.Round2IsNearest | agents/subagents/financial_metrics_agent/tools.py:33-51 | no two-decimal value lies strictly closer to the input than its rounding |
| Rounding.Round2FixesCents | agents/subagents/financial_metrics_agent/tools.py:33-51 | a value that already has two decimal places is returned unchanged |
| Rounding.Round2Idempotent | agents/subagents/financial_metrics_agent/tools.py:33-51 | rounding a rounded value again changes nothing |
| Rounding.Round2Monotone | agents/subagents/financial_metrics_agent/tools.py:33-51 | rounding preserves the order of its inputs |
| Rounding.Round2Negation | agents/subagents/financial_metrics_agent/tools.py:33-51 | rounding a negated value gives the negated rounding, as ties go to even on both sides of zero |
| FinancialMetrics.Noi | agents/subagents/financial_metrics_agent/tools.py:20-24 | NOI fails, with a missing-input error, exactly when income or expenses is absent; otherwise adding the expenses back to the result gives the gross rental income |
| FinancialMetrics.Quotient | agents/subagents/financial_metrics_agent/tools.py:29-51 | the shared validation reports a missing input exactly when an argument is absent, a zero divisor exactly when both are present and the divisor is zero, and otherwise a quotient that times the divisor gives the numerator |
| FinancialMetrics.Dscr | agents/subagents/financial_metrics_agent/tools.py:27-33 | DSCR reports a missing input exactly when NOI or debt service is absent, a zero divisor exactly when both are present and debt service is zero, and otherwise the two-decimal half-to-even rounding of NOI over debt service |
| FinancialMetrics.Ltv | agents/subagents/financial_metrics_agent/tools.py:36-42 | LTV reports a missing input exactly when loan amount or price is absent, a zero divisor exactly when both are present and the price is zero, and otherwise the two-decimal half-to-even rounding of the loan-to-price percentage |
| FinancialMetrics.CapRate | agents/subagents/financial_metrics_agent/tools.py:45-51 | Cap Rate reports a missing input exactly when NOI or price is absent, a zero divisor exactly when both are present and the price is zero, and otherwise the two-decimal half-to-even rounding of the NOI-to-price percentage |
| FinancialMetrics.DscrDeterminedByRounding | agents/subagents/financial_metrics_agent/tools.py:33 | a DSCR with a nonzero divisor succeeds with precisely the whole-cent value that rounds the exact ratio half to even |
| FinancialMetrics.PercentDeterminedByRounding | agents/subagents/financial_metrics_agent/tools.py:42-51 | LTV and Cap Rate with a nonzero price succeed with precisely the whole-cent value that rounds the exact percentage half to even |
| FinancialMetrics.MissingInputBeforeZeroDenominator | agents/subagents/financial_metrics_agent/tools.py:29-50 | an absent argument is reported as missing even when the divisor is zero, and an absent divisor is never reported as zero, in all three ratios |
| FinancialMetrics.PresentInputsSucceed | agents/subagents/financial_metrics_agent/tools.py:22-51 | present arguments with a nonzero divisor always succeed, whatever the sign of the numerator, and NOI always succeeds on present arguments |
| FinancialMetrics.RatioResultsStable | agents/subagents/financial_metrics_agent/tools.py:33-51 | every successful DSCR, LTV and Cap Rate has at most two decimal places, so rounding it again leaves it unchanged |
| FinancialMetrics.DscrMonotoneInNoi | agents/subagents/financial_metrics_agent/tools.py:33 | with positive debt service, a larger NOI never gives a smaller DSCR |
| FinancialMetrics.LtvWithinPercentRange | agents/subagents/financial_metrics_agent/tools.py:42 | a loan between zero and a positive purchase price has an LTV between 0 and 100 |
| WorkedExample.NoiExample | agents/subagents/financial_metrics_agent/tools.py:24 | NOI of income 500000 and expenses 200000 is 300000 |
| WorkedExample.DscrExample | agents/subagents/financial_metrics_agent/tools.py:33 | DSCR of NOI 300000 and debt service 250000 is 1.2 |
| WorkedExample.LtvExample | agents/subagents/financial_metrics_agent/tools.py:42 | LTV of loan 3000000 and price 4000000 is 75.0 |
| WorkedExample.CapRateExample | agents/subagents/financial_metrics_agent/tools.py:51 | Cap Rate of NOI 300000 and price 4000000 is 7.5 |
| WorkedExample.CoverageFromIncomeExample | agents/subagents/financial_metrics_agent/tools.py:20-33 | the NOI computed from income 500000 and expenses 200000, over debt service 250000, gives a DSCR of 1.2 |
| WorkedExample.HalfEvenTieExamples | agents/subagents/financial_metrics_agent/tools.py:33 | exact ties round to an even number of cents: 0.125 to 0.12, 0.375 to 0.38, 0.625 to 0.62, -0.125 to -0.12; on exact values 2.675 goes to 2.68 |
| WorkedExample.RejectionExamples | agents/subagents/financial_metrics_agent/tools.py:22-50 | a zero debt service is rejected as a zero divisor, an absent argument as missing input, including an absent numerator beside a zero price |

## Left out

- Binary floating point: arguments and results are exact reals. Python
  divides and rounds IEEE-754 doubles, so a value that only looks like a tie
  (2.675, stored slightly below) rounds down there (2.67) but rounds to even
  here (2.68); infinities, NaN and overflow are not modelled either.
- Argument types other than numbers and `None`: Python would accept, say, a
  boolean, and fail differently on a string; the model's arguments are
  absent or real.
- Error messages: the seven distinct `ValueError` messages (four
  missing-input messages naming the required arguments, three zero-divisor
  messages naming the calculation) are reduced to the two causes they report.
- The tool registration that wraps each calculator for the agent framework
  (agents/subagents/financial_metrics_agent/tools.py:54-75): it has no logic of its own.
- The agent pipeline (sequencing, parallel fan-out and join, shared output
  keys), the agent configurations and the instruction prompts: their
  behaviour lives in an external agent library and in language-model
  instructions, not in code. This includes the risk agent's vacancy and
  interest-rate stress tests, which are requests to a model.
- The data-warehouse query helper: network I/O against an external service.
- Environment and model selection (loading of settings from the
  environment).
