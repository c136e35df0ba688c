/** Option, in the usual form. */
module Wrappers {
  datatype Option<+T> = None | Some(value: T)
}
