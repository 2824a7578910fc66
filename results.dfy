/** Failure-carrying results: the model's stand-in for the QL_REQUIRE exceptions of the library. */
module Results {

  /** A value, or the error that the library would have thrown instead of producing it. */
  datatype Result<+T, +E> = Success(value: T) | Failure(error: E)

  /** The outcome of an operation that returns nothing but may throw. */
  datatype Outcome<+E> = Pass | Fail(error: E)

  /** An optional value. */
  datatype Option<+T> = None | Some(value: T)
}
