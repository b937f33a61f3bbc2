/** Small failure-carrying datatypes shared by the other modules. */
module Wrappers {

  /** A value that may be absent: an index not chosen, a slot not set. */
  datatype Option<+T> = None | Some(value: T)

  /** The outcome of an operation whose C# counterpart can throw. */
  datatype Result<+R, +E> = Success(value: R) | Failure(error: E)
}
