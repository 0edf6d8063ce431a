/** Failure-carrying datatypes shared by the tracker's modules. */
module Wrappers {

  /** A value that may be absent: a missing price in a joined column, a file that does not exist. */
  datatype Option<+T> = None | Some(value: T)

  /** The outcome of a step that can fail with an error of type E. */
  datatype Result<+T, +E> = Ok(value: T) | Err(error: E)
}
