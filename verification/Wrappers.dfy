/** Option and Result: the tagged values that stand for Python's `None` returns
    and for errors raised by the database. */
module Wrappers {

  datatype Option<+T> = None | Some(value: T)

  datatype Result<+T, +E> = Success(value: T) | Failure(error: E)
}
