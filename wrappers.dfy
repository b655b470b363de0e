/** The optional value used where the source returns a null pointer or a null client. */
module Wrappers {
  datatype Option<+T> = None | Some(value: T)
}
