/** An optional value: a bare `return`, a failed evaluation. */
module Wrappers {
  datatype Option<+T> = None | Some(value: T)
}
