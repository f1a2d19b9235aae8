/** Option, Result and Outcome: the values an operation hands back when it may
    yield nothing or may stop short with a panic or an abort. */
module Wrappers {

  /** An iterator's item: `Some(x)` while elements remain, `None` once exhausted. */
  datatype Option<+T> = None | Some(value: T)

  /** What a constructor produces, or why it stopped short. */
  datatype Result<+R, +E> = Success(value: R) | Failure(error: E)

  /** Whether a state-changing operation completed, or why it stopped short. */
  datatype Outcome<+E> = Pass | Fail(error: E)
}
