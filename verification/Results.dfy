/** What a parsing step can come back with: a value, or the exception the program throws. */
module Results {
  datatype Option<+T> = None | Some(value: T)

  /** The two exceptions that `std::stoi` throws, no other step of the codec throws, and the one of an empty
      `std::function`. */
  datatype Fault = InvalidArgument | OutOfRange | BadFunctionCall

  datatype Result<+T> = Ok(value: T) | Err(fault: Fault) {
    predicate IsFailure() {
      Err?
    }

    function PropagateFailure<U>(): Result<U>
      requires Err?
    {
      Err(fault)
    }

    function Extract(): T
      requires Ok?
    {
      value
    }
  }
}
