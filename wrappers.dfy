/** The outcome of a decoder: a value, or `None` where the source panics. */
module Wrappers {
  datatype Option<+T> = None | Some(value: T)
}
