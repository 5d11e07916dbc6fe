/** The result types the other modules share. */
module Outcomes {

  datatype Option<+T> = None | Some(value: T)

  /** A value, or the error the source raises instead of returning one. */
  datatype Result<+T, +E> = Ok(value: T) | Err(error: E)
}
