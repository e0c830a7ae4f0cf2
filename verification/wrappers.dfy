/** Failure-compatible wrapper used where the source panics instead of returning a value. */
module Wrappers {

  datatype Option<+T> = None | Some(value: T)
}
