/** Error kinds and the failure-compatible wrappers shared by every stage.
    Each Java exception of the pipeline becomes one `ErrorKind`; the message
    text is not modelled. */
module Errors {

  datatype ErrorKind =
    | InvalidCharacter       // a lower-case letter where a variable is expected
    | UnknownToken           // no operator symbol starts at the scan position
    | UnexpectedToken        // a token that is no variable, operator or parenthesis
    | MismatchedParentheses  // a ')' without '(' or a '(' never closed
    | UnknownVariable        // a variable absent from the assignment
    | InsufficientOperands   // an operator with too few stacked operands
    | MalformedResult        // the operand stack does not end with one entry

  datatype Option<T> = None | Some(value: T)

  datatype Result<T> = Ok(value: T) | Err(error: ErrorKind) {
    predicate IsFailure() { Err? }

    function PropagateFailure<U>(): Result<U>
      requires Err?
    {
      Err(error)
    }

    function Extract(): T
      requires Ok?
    {
      value
    }
  }
}
