/** A value that may be absent: a nullable reference of the source. */
module Wrappers {
  datatype Option<+T> = None | Some(value: T)
}
