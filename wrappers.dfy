/** The optional value used for the last vertical position and for line indices. */
module Wrappers {
  datatype Option<+T> = None | Some(value: T)
}
