/** Small failure-carrying datatypes shared by the harness model. */
module Wrappers {

  /** A value that may be absent; `None` stands for a Java `null` reference. */
  datatype Option<+T> = None | Some(value: T)

  /** The outcome of an assertion pass: success, or the first failure raised. */
  datatype Outcome<+E> = Pass | Fail(error: E)
}
