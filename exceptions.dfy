/** The exceptions that the schema operations can raise, as values. */
module Exceptions {

  /** std::out_of_range from std::string::substr, or the std::runtime_error thrown by the factory. */
  datatype Exception = OutOfRange | RuntimeError(what: string)

  /** Either the value an operation returns or the exception it throws. */
  datatype Result<+T> = Ok(value: T) | Throw(exception: Exception)
}
