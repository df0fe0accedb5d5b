/** A value that may be absent: a null pointer, an empty optional, an error or an exception. */
module Wrappers {
  datatype Option<+T> = None | Some(value: T)
}
