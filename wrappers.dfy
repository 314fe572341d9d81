/** Option and Result values: `null` returns and thrown exceptions of the
    Java code become `None` and `Failure` here. */
module Wrappers {

  datatype Option<+T> = None | Some(value: T)

  datatype Result<+T, +E> = Success(value: T) | Failure(error: E)
}
