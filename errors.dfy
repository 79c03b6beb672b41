/**
 * The typed failures of the analysis (src/errors.rs), together with the result
 * types that carry them. `InterpreterError` and `InvalidArgumentError`, and the
 * optional message, are used by the interpreter.
 */
module Errors {
  import opened Prelude

  datatype ErrorKind = NotImplementedError | InterpreterError | InvalidArgumentError

  datatype Error = Error(kind: ErrorKind, message: Option<string>)

  /** `Error::new`: an error of the given kind without a message. */
  function New(kind: ErrorKind): Error {
    Error(kind, None)
  }

  /** `Error::with_message`. */
  function WithMessage(kind: ErrorKind, message: string): Error {
    Error(kind, Some(message))
  }

  /** `Result<T, Error>`, usable with `:-`. */
  datatype Result<+T> = Ok(value: T) | Err(error: Error) {
    predicate IsFailure() {
      Err?
    }

    function PropagateFailure<U>(): Result<U>
      requires Err?
    {
      Err(error)
    }

    function Extract(): T
      requires Ok?
    {
      value
    }
  }

  /** `Result<(), Error>`. */
  datatype Outcome = Pass | Fail(error: Error)
}
