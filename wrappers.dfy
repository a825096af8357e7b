/** Optional values and fallible results, as the archiver's nullable columns and
    database errors need them. */
module Wrappers {

  /** A nullable value: Python's `None` or a present value. */
  datatype Option<+T> = None | Some(value: T)

  /** The outcome of a statement that may raise. */
  datatype Result<+R, +E> = Success(value: R) | Failure(error: E)
}
