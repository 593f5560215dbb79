/** Option and Result, standing for Java's nullable references and thrown exceptions. */
module Wrappers {

  /** A nullable reference: `None` is Java's `null`. */
  datatype Option<+T> = None | Some(value: T)

  /** The value of a call that either returns normally or throws `error`. */
  datatype Result<+R, +E> = Success(value: R) | Failure(error: E)
}
