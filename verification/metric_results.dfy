/**
 Inputs and outcomes of the underwriting metric calculators.

 Every calculator argument may be absent (Python's `None`), and every
 calculator either returns a number or rejects its arguments. The Python
 calculators raise the same exception type (`ValueError`) for both kinds of
 rejection and tell them apart only by message; here the two causes are
 distinct values.
 */
module MetricResults {

  /** An argument that may be absent. */
  datatype Option<+T> = None | Some(value: T)

  /** Why a calculator refused to compute. */
  datatype MetricError =
    | MissingInput     // an argument was absent
    | ZeroDenominator  // the divisor of a ratio was zero

  /** The value a calculator returns, or the reason it raised. */
  datatype Result<+T> = Ok(value: T) | Err(error: MetricError)
}
