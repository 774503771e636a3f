/** An optional value: `None` stands for Go's `nil` pointer or a missing match. */
module Wrappers {
  datatype Option<+T> = None | Some(value: T)
}
