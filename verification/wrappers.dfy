/** Optional values and success/failure results, used wherever the scripts
    return `None` or raise. */
module Wrappers {

  datatype Option<+T> = None | Some(value: T)

  /** `Err` stands for a Python exception that escapes to the caller. */
  datatype Result<+T, +E> = Ok(value: T) | Err(error: E)
}
