/** Optional values and results with an error message, shared by the modules
    that model JavaScript's `null`/`undefined` and its `{ data, error }` replies. */
module Wrappers {
  datatype Option<T> = None | Some(value: T)

  datatype Result<T> = Success(value: T) | Failure(error: string)
}
