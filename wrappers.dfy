/** An optional value: `None` stands for a Swift `nil` or for a run-time trap. */
module Wrappers {
  datatype Option<+T> = None | Some(value: T)
}
