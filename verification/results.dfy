/** Failure-carrying result types: the reference model signals caller errors with
    exceptions, which this model returns as values instead. */
module Results {

  datatype Option<+T> = None | Some(value: T)

  /** The error conditions the reference model raises. */
  datatype Error =
    | MissingEstimator   // dt_mode=1 without an estimator object
    | NotAnInteger       // int(s, 0) rejected the text
    | OutOfRange         // a parsed value outside signed 8-bit

  datatype Result<+T> = Ok(value: T) | Err(error: Error)
}
