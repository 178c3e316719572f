/** Failure-carrying results shared by the modules of this project. */
module Wrappers {

  /** A value that may be missing: `None` is what the original code signals
      with Python's `None` or with an exception that its caller catches. */
  datatype Option<+T> = None | Some(value: T)

  /** An outcome that is either a value or a classified error. */
  datatype Result<+T, +E> = Success(value: T) | Failure(error: E)
}
