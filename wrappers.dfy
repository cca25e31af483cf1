/** Optional values and results with an error, standing for the source's
    `undefined`/`-1` sentinels and thrown exceptions. */
module Wrappers {

  datatype Option<+T> = None | Some(value: T)

  datatype Result<+T, +E> = Ok(value: T) | Err(error: E)
}
