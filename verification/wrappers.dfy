/** Failure-carrying datatypes shared by every module of the model. */
module Wrappers {

  /** A value that may be absent: a null pointer, `std::nullopt`, `std::string::npos`. */
  datatype Option<+T> = None | Some(value: T)

  /** A computation that either yields a value or fails with an error value
      (a thrown exception or an error out-parameter in the source). */
  datatype Result<+T, +E> = Success(value: T) | Failure(error: E)
}
