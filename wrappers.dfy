/** Option and Result values: a missing dictionary key or a raised Python
    exception becomes a `None` or a `Failure` instead of a precondition. */
module Wrappers {

  datatype Option<+T> = None | Some(value: T)

  datatype Result<+T, +E> = Success(value: T) | Failure(error: E)

  /** The Python exceptions the modelled handlers can raise. */
  datatype Error =
    | KeyError(key: string)       // a dictionary lookup of an absent key
    | IndexError                  // a list index past the end (Python's message names no index)
}
