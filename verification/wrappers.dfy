/** Failure-carrying values shared by the modules of the model. */
module Wrappers {

  /** A value that may be absent, such as a file that does not exist. */
  datatype Option<+T> = None | Some(value: T)

  /** The outcome of an operation that either produces a value or fails with an error. */
  datatype Result<+T, +E> = Success(value: T) | Failure(error: E)

  /** The reasons the form pipeline gives up with an exception. */
  datatype FormError =
    | ImageNotReadable      // the decoded image is empty
    | RegionOutsideImage    // the fixed answer-area crop does not fit the image
    | ContoursNotFound      // contour tracing found nothing at all
}
