/** Optional values, pass/fail outcomes and results, used for the source's `None` results and its exceptions. */
module Wrappers {

  datatype Option<+T> = None | Some(value: T)

  datatype Outcome<+E> = Pass | Fail(error: E)

  datatype Result<+T, +E> = Success(value: T) | Failure(error: E)
}
