/** The three ways a generation request is refused. The source raises `ValueError`
    with a message for each; the message's number is kept as a field. */
module Errors {

  datatype Error =
    | NoCharacterClass                 // every class flag is off: the combined pool is empty
    | LengthTooSmall(minimum: nat)     // fewer positions than enabled classes; `minimum` is that count
    | CapacityExceeded(maximum: nat)   // more passwords asked for than `maximum`, the distinct strings available

  datatype Result<+T> = Ok(value: T) | Err(error: Error)
}
