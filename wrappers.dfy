/** Optional values and results with an error, used where the bot code relies on
    `None` or on an exception escaping to the caller. */
module Wrappers {

  datatype Option<+T> = None | Some(value: T)

  datatype Result<+T, +E> = Ok(value: T) | Err(error: E)
}
