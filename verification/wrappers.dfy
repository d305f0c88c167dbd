/** Small failure-carrying datatypes shared by the rest of the model. */
module Wrappers {

  /** A value that may be absent. In the numeric tables, `None` stands for a
      NaN padding cell. */
  datatype Option<+T> = None | Some(value: T)

  /** The outcome of an operation that either succeeds with a value or fails
      with an error, in place of a raised Python exception. */
  datatype Result<+T, +E> = Success(value: T) | Failure(error: E)
}
