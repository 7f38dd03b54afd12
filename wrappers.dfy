/** The optional value used where the Go code returns a possibly-nil pointer or error. */
module Wrappers {

  datatype Option<+T> = None | Some(value: T)
}
