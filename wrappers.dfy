/** Optional values, the Python exceptions the modelled code raises, and results. */
module Wrappers {

  datatype Option<+T> = None | Some(value: T)

  /** The exception classes the modelled functions can raise. */
  datatype Exception = KeyError | ValueError

  /** The outcome of a Python call: a value, or the exception it raised. */
  datatype Result<+T> = Ok(value: T) | Err(error: Exception)
}
