// Outcome types shared by every tree: the source signals its failures with C++
// exceptions (std::invalid_argument, std::out_of_range) or undefined
// behaviour on a malformed record; the model returns them as values.
module Results {
  datatype Option<T> = None | Some(value: T)

  /** Why an operation stopped without a result. */
  datatype Failure =
    | InvalidLoop      // a descent took more iterations than its guard allows
    | BadRecord        // a stored record is missing or cannot be parsed
    | KeyTooShort      // a padded key is shorter than 64 characters
    | ProofTooLong     // a proof walk did not reach its target within its bound
    | OutOfRange       // std::string::substr or replace started past the end

  datatype Result<T> = Ok(value: T) | Err(error: Failure)
  {
    predicate IsFailure() { Err? }
    function PropagateFailure<U>(): Result<U> requires Err? { Err(error) }
    function Extract(): T requires Ok? { value }
  }
}
