/** The optional value used for fallible parsing and lookups. */
module Wrappers {
  datatype Option<+T> = None | Some(value: T)
}
