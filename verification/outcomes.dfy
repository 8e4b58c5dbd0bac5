/** Error results for the risk engine.  Each constructor of `Error` stands for
    one way the program stops or yields no number instead of an estimate. */
module Outcomes {

  /** Why an operation produced no estimate. */
  datatype Error =
    | InvalidWeights          // the weights do not sum to 100 (the script stops)
    | NoData                  // the downloaded price table is empty (the script warns and skips)
    | DimensionMismatch       // number of weights differs from number of asset columns (the script stops)
    | PercentileOutOfRange    // numpy refuses a percentile outside [0, 100] (ValueError)
    | EmptySample             // numpy has no order statistic of an empty sample (IndexError)
    | UnsupportedConfidence   // the z-table has no entry for the confidence level (KeyError)
    | TooFewReturns           // a sample standard deviation needs two returns (pandas yields NaN)

  datatype Result<+T> = Ok(value: T) | Err(error: Error)

  datatype Option<+T> = None | Some(value: T)
}
