/** Option and Result, used wherever the game dereferences a pointer that may be
    null or looks up a key that may be missing. */
module Wrappers {

  datatype Option<+T> = None | Some(value: T)

  datatype Result<+R, +E> = Ok(value: R) | Err(error: E)
}
