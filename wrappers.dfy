// Option and Result: the "maybe a row" and "value or error" shapes used by the
// query layer and by the handlers built on it.
module Wrappers {

  datatype Option<+T> = None | Some(value: T)

  datatype Result<+R, +E> = Success(value: R) | Failure(error: E)
}
