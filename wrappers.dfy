/** The optional value used wherever the source returns a nil pointer or a missing entry. */
module Wrappers {

  datatype Option<+T> = None | Some(value: T)
}
