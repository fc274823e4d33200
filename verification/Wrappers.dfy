// Results of operations that may have no answer, or that the scripts abort
// with an exception.
module Wrappers {

  datatype Option<+T> = None | Some(value: T)

  // The exceptions the modelled code can raise, by kind.
  datatype Error =
    | AssertionError
    | ValueError
    | IndexError
    | KeyError
    | TypeError

  datatype Result<+T> = Ok(value: T) | Err(error: Error)
}
