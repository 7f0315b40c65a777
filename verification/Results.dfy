/** The outcomes of calls that the source reports by throwing. */
module Results {

  datatype Error =
    | OutOfRange       // std::out_of_range
    | InvalidArgument  // std::invalid_argument
    | LogicError       // std::logic_error
    | LengthError      // std::length_error
    | Overflow         // std::overflow_error
    | SystemError      // std::system_error

  datatype Option<+T> = None | Some(value: T)

  datatype Result<+T> = Ok(value: T) | Err(error: Error)
}
