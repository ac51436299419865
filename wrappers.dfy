/** Optional and fallible results, standing in for java.util.Optional and for
    an operation that throws. */
module Wrappers {

  /** java.util.Optional: either empty or holding a value. */
  datatype Option<+T> = None | Some(value: T)

  /** The outcome of a call that may end in an exception. */
  datatype Result<+R, +E> = Success(value: R) | Failure(error: E)
}
