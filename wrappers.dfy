/** Small failure-compatible wrappers shared by the modules of this model. */
module Wrappers {

  datatype Option<+T> = None | Some(value: T)

  /** The result of an operation that either succeeds with nothing to return or fails with a reason. */
  datatype Outcome<+E> = Pass | Fail(error: E)
}
