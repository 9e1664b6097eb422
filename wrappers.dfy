/** Option and Result: an absent value, and an operation that either produces a
    value or stops the run with a fault (the Python scripts raise an exception). */
module Wrappers {

  datatype Option<+T> = None | Some(value: T)

  datatype Result<+T, +E> = Ok(value: T) | Err(error: E)
}
