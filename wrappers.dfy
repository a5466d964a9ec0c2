/** Option and Result values used for the analyzer's error paths. */
module Wrappers {

  datatype Option<+T> = None | Some(value: T)

  /** Either a value or the first error that stopped the analysis. */
  datatype Result<+R, +E> = Ok(value: R) | Err(error: E)
}
