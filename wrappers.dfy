/** The optional value used by the readers that parse emitted SQL text back. */
module Wrappers {
  datatype Option<+T> = None | Some(value: T)
}
