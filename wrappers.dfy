/** Option and Result values for the places where the JavaScript code
    returns `undefined`/`null` or reports an error instead of a value. */
module Wrappers {

  datatype Option<+T> = None | Some(value: T)

  datatype Result<+R, +E> = Success(value: R) | Failure(error: E)
}
