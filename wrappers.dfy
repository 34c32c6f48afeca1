/** Option and Result values used for the source's "None" returns and its
    (success, value, error) tuples. */
module Wrappers {

  datatype Option<+T> = None | Some(value: T)

  datatype Result<+T, +E> = Ok(value: T) | Err(error: E)
}
