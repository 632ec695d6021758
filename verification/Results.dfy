/** Outcomes of operations that throw in the original. */
module Results {
  datatype Error =
    | DomainError      // std::domain_error
    | LengthError      // std::length_error
    | InvalidArgument  // std::invalid_argument
    | OutOfRange       // std::out_of_range, from a checked element access
    | DataTooLong      // qrcodegen::data_too_long

  datatype Result<+T> = Ok(value: T) | Err(error: Error)

  datatype Option<+T> = None | Some(value: T)
}
