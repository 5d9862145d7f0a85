/** Option and Result values used for "absent" inputs and for the error
    answers of the event operations. */
module Outcomes {

  datatype Option<+T> = None | Some(value: T)

  datatype Result<+T, +E> = Ok(value: T) | Err(error: E)
}
