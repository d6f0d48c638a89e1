/** Optional and fallible results, used where pandas or Python returns
    nothing (an empty `mode()`, a missing column) or raises. */
module Wrappers {

  datatype Option<T> = None | Some(value: T)

  datatype Result<T, E> = Ok(value: T) | Err(error: E)
}
