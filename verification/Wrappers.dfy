/** The optional values that several services return. */
module Wrappers {
  datatype Option<+T> = None | Some(value: T)
}
