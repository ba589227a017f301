/** Optional values and results: the model's stand-ins for Python's `None`
    and for an exception that propagates out of a call. */
module Outcomes {

  datatype Option<+T> = None | Some(value: T)

  datatype Result<+T, +E> = Ok(value: T) | Err(error: E)
}
