/** Option, for a pointer that may be null and for an operation that may find nothing. */
module Wrappers {
  datatype Option<T> = None | Some(value: T)
}
