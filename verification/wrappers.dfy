/** Optional values, and failure-carrying results used where the C++ code throws. */
module Wrappers {

  /** A value that may be absent; `None` stands for a null pointer. */
  datatype Option<+T> = None | Some(value: T)

  /** Either a value or the error that aborted the computation. */
  datatype Result<+T, +E> = Ok(value: T) | Err(error: E)
}
