/** The optional value used for nullable columns and for request fields that may be absent. */
module Wrappers {
  datatype Option<+T> = None | Some(value: T)
}
