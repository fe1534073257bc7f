/** Option and Result, used for the outcomes xmlCalc signals with a bool
    out-parameter, a missing dictionary key or an exception. */
module Wrappers {

  datatype Option<+T> = None | Some(value: T)

  datatype Result<+T, +E> = Ok(value: T) | Err(error: E)
}
