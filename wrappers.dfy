/** A value that may be absent: JavaScript's `null` for an object-valued
    state variable. */
module Wrappers {
  datatype Option<T> = None | Some(value: T)
}
