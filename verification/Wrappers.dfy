/** Result values shared by every component: the source's `Result` monad, with the
    exceptions its callers tell apart spelled out as `Error` cases. */
module Wrappers {
  datatype Option<+T> = None | Some(value: T)

  datatype Error =
    | MessageIncomplete   // MessageIncompleteException, the only parse failure that is retried
    | Rejected            // a failed Result carrying any other exception
    | Thrown              // an exception that leaves the method instead of being returned

  datatype Result<+T> = Success(value: T) | Failure(error: Error)
}
