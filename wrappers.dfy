/** The optional value used for nullable columns and cells. */
module Wrappers {
  datatype Option<+T> = None | Some(value: T)
}
