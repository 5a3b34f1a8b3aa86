/** The wrappers shared by every module of the model: `Option` for
    JavaScript's `undefined`-or-value, `Result` for a value or a thrown error. */
module Wrappers {

  datatype Option<+T> = None | Some(value: T)

  datatype Result<+R, +E> = Success(value: R) | Failure(error: E)
}
