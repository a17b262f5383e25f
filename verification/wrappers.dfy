/** Failure-carrying return types used in place of the program's exceptions and exits. */
module Wrappers {

  /** A value that may be absent: a date text that does not parse, a `--source` value outside the choices. */
  datatype Option<+T> = None | Some(value: T)

  /** Either a value or the error that stopped the computation. */
  datatype Result<+R, +E> = Success(value: R) | Failure(error: E)
}
