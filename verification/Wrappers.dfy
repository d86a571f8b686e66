/** The optional value used throughout: an absent map entry, a nil value or a failed lookup. */
module Wrappers {
  datatype Option<+T> = None | Some(value: T)
}
