/** Option and Result: the error paths of the drivers (a missing field, a
    Python exception that ends the script) are values, not preconditions. */
module Wrappers {

  datatype Option<+T> = None | Some(value: T)

  datatype Result<+R, +E> = Success(value: R) | Failure(error: E)
}
