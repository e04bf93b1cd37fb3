/** Failure-carrying result types shared by the other modules. */
module Wrappers {

  /** `None` stands for Python's `None` returned by a helper that gave up. */
  datatype Option<+T> = None | Some(value: T)

  /** Outcome of a step that either yields a value or fails with a reason. */
  datatype Result<+R, +E> = Ok(value: R) | Err(error: E)
}
