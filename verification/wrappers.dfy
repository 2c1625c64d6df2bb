/** Failure-compatible Option and Result types, used for the codec's nullable fields and for
    the errors the source reports by returning or throwing a message. */
module Wrappers {

  datatype Option<+T> = None | Some(value: T)

  datatype Result<+R, +E> = Success(value: R) | Failure(error: E)
}
