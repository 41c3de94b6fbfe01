/** The exceptions the library raises, as values.

    Every failure in the Ruby code is an exception that aborts the whole call;
    here a call returns `Err` with the exception instead. */
module Outcomes {

  /** The Ruby exception classes that the modelled code raises. */
  datatype Error =
    | ExprifyError(message: string)   // Exprify::Error, the library's only error class
    | NotImplementedError             // an abstract method was called
    | NoMethodError(name: string)     // a method the receiver does not define was called
    | ArgumentError(message: string)  // a value the callee rejects

  datatype Option<+T> = None | Some(value: T) {
    predicate IsFailure() {
      None?
    }

    function PropagateFailure<U>(): Option<U>
      requires None?
    {
      None
    }

    function Extract(): T
      requires Some?
    {
      value
    }
  }

  datatype Result<+T> = Ok(value: T) | Err(error: Error) {
    predicate IsFailure() {
      Err?
    }

    function PropagateFailure<U>(): Result<U>
      requires Err?
    {
      Err(error)
    }

    function Extract(): T
      requires Ok?
    {
      value
    }
  }
}
