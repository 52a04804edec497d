/** Option, used for JavaScript's `null` and for calls that throw. */
module Wrappers {
  datatype Option<+T> = None | Some(value: T)
}
