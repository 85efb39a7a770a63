/** Outcome types shared by the cache model: the three errors the cache
    reports, and the Option/Result/Outcome shapes its operations return. */
module Wrappers {

  /** The errors the cache returns (the text of Go's error values is not modelled). */
  datatype CacheError = NotFound | AlreadyExists | TypeMismatch

  datatype Option<+T> = None | Some(value: T)

  /** A value together with the error that replaces it on failure. */
  datatype Result<+T> = Success(value: T) | Failure(error: CacheError)

  /** An operation that only reports success or an error (Go's `error` return). */
  datatype Outcome = Pass | Fail(error: CacheError)
}
