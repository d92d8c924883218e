/** Optional values and the Python exceptions the recommender raises or absorbs. */
module Wrappers {

  datatype Option<T> = None | Some(value: T)

  /** The exception classes that decide control flow in the recommender. */
  datatype Exception = KeyError | ValueError | IndexError

  /** A computation that either returns a value or raises one of the exceptions above. */
  datatype Result<T> = Ok(value: T) | Raise(error: Exception)
}
