/** Option and Result, the shapes the activities use for a missing JSON key
    and for an exception that ends an activity. */
module Wrappers {

  datatype Option<+T> = None | Some(value: T)

  datatype Result<+T, +E> = Ok(value: T) | Err(error: E)
}
