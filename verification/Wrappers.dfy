/** The optional values that the source writes as `T | undefined`, and the ways a write of a file can end. */
module Wrappers {

  datatype Option<+T> = None | Some(value: T)

  /** A write that throws may do so before its content is in place, or only after that. */
  datatype Write = Succeeds | FailsBefore | FailsAfter
}
