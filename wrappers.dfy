/** Option, Result and Evaluation, shared by the other modules. */
module Wrappers {

  /** An optional value: None stands for "nothing to report" or "skipped". */
  datatype Option<+T> = None | Some(value: T)

  /** The outcome of a step that can fail with an error value. */
  datatype Result<+R, +E> = Success(value: R) | Failure(error: E)

  /** What evaluating a Go expression does: it yields a value or it panics
      (a slice index out of range, for instance). Used only by the members
      that model the source exactly as written. */
  datatype Evaluation<+T> = Panicked | Evaluated(value: T)
}
