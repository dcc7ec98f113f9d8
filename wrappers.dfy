/** Failure-compatible result types used throughout the model. Go functions
    that return `(value, error)` are modelled as returning a `Result`. */
module Wrappers {

  datatype Option<+T> = None | Some(value: T)

  /** `Success(v)` is Go's `(v, nil)`; `Failure(e)` is `(_, err)` with
      `err.Error() == e`. */
  datatype Result<+R, +E> = Success(value: R) | Failure(error: E)
}
