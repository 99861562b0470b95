/** The optional value used wherever the Go code returns a value that may be nil. */
module Wrappers {

  datatype Option<+T> = None | Some(value: T)
}
