/** The optional value used for nullable cells, paths and parser results. */
module Wrappers {
  datatype Option<+T> = None | Some(value: T)
}
