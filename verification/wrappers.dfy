/** A value that may be missing, for lookups that the program answers
    with JavaScript's `undefined`. */
module Wrappers {
  datatype Option<+T> = None | Some(value: T)
}
