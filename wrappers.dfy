/** Option and Result, used for the lookups that may find nothing and for
    the paths on which the scraper raises instead of returning. */
module Wrappers {

  datatype Option<+T> = None | Some(value: T)

  datatype Result<+R, +E> = Success(value: R) | Failure(error: E)
}
