/** Failure-carrying results shared by every allocator module. The C++ code signals
    resource exhaustion with a null pointer and programming errors with exceptions;
    here a null pointer is `None` and an exception is an `Error` value. */
module Wrappers {

  datatype Option<+T> = None | Some(value: T)

  /** The exception classes the core throws. */
  datatype Error =
    | InvalidArgument  // std::invalid_argument
    | RuntimeError     // std::runtime_error
    | LengthError      // std::length_error
    | OutOfRange       // std::out_of_range

  /** The outcome of an operation that returns nothing but may throw. */
  datatype Outcome = Pass | Fail(error: Error)

  /** The outcome of an operation that returns a value or throws. */
  datatype Result<+T> = Ok(value: T) | Err(error: Error)
}
