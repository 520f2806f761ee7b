/** The optional value used where the source gets back an `Option` or a `Result` it only tests for success. */
module Wrappers {
  datatype Option<+T> = None | Some(value: T)
}
