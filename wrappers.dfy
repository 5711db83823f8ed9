/** Optional values, shared by the frontend and backend models. */
module Wrappers {

  /** Optional value, as JavaScript's `null`/`undefined` or a Go zero check. */
  datatype Option<T> = None | Some(value: T)
}
