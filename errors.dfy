/** Outcome types shared by the calculator engine: every ValueError the
    service raises becomes an `Err` carrying one of the `Error` kinds. */
module Errors {

  datatype Option<+T> = None | Some(value: T)

  /** The kinds of failure the engine reports. Message texts are not
      modelled; the values a message mentions are kept as fields. */
  datatype Error =
    | UnknownOperation(name: string)            // name after lower-casing
    | NotEnoughArguments(operation: string)
    | TooManyArguments(operation: string)
    | DivisionByZero
    | NegativeFactorial
    | NonIntegerResult                          // pow with a negative exponent
    | InvalidArgument                           // a non-integer pushed on the stack
    | Underflow(requested: int, available: nat) // a removal asks for more than the stack holds
    | OperandUnderflow(operation: string, required: nat, available: nat) // too few operands for an operation
    | InvalidCount                              // the count parameter is not a number
    | InvalidFlavor(flavor: string)

  datatype Result<+T> = Ok(value: T) | Err(error: Error)
}
