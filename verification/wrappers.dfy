/** The optional value used for every parse step that can fail silently. */
module Wrappers {
  datatype Option<+T> = None | Some(value: T)
}
