/** Option and Result: JavaScript's null/undefined values, rejected promises and caught
    exceptions become explicit values here. */
module Wrappers {

  datatype Option<+T> = None | Some(value: T)

  datatype Result<+R, +E> = Success(value: R) | Failure(error: E)
}
