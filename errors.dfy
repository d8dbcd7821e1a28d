/** The exceptions thrown by `ariel::Graph` and the results that carry them. */
module Errors {

  /** One constructor per standard exception class the graph throws. */
  datatype Error =
    | LogicError       // std::logic_error: an empty operand of binary + or *
    | InvalidArgument  // std::invalid_argument: wrong shape, size mismatch, division by zero
    | OutOfRange       // std::out_of_range: a bad vertex index
    | OverflowError    // std::overflow_error: a cell sum above INT_MAX in binary +

  /** A value, or the exception that was thrown instead. */
  datatype Result<+T> = Ok(value: T) | Err(error: Error)

  /** The outcome of an operation that returns nothing. */
  datatype Status = Done | Failed(error: Error)
}
