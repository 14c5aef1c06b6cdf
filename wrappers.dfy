/** Option and Result values for missing cells and for the run's error paths. */
module Wrappers {

  /** A cell that may be missing (pandas NaN/None). */
  datatype Option<+T> = None | Some(value: T)

  /** The outcome of a step that can raise in the script. */
  datatype Result<+R, +E> = Success(value: R) | Failure(error: E)
}
