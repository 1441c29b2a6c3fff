/** The optional value used wherever a Go function returns a value and an
    error: `None` stands for a non-nil error. */
module Wrappers {
  datatype Option<+T> = None | Some(value: T)
}
