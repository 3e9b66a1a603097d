/** Small failure-carrying datatypes shared by the other modules. */
module Wrappers {

  /** A value that may be missing: a failed lookup or decode. */
  datatype Option<+T> = None | Some(value: T)

  /** The result of an operation that returns nothing on success. */
  datatype Outcome<+E> = Pass | Fail(error: E)

  /** An octet, as read from a file or held in an operating-system string. */
  newtype byte = x: int | 0 <= x < 256
}
