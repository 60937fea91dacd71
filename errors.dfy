/**
 The failure conditions of the derivation, named after the Python exceptions that
 mpw/algorithm.py raises, and a failure-compatible result type that carries them.
 */
module Errors {

  datatype Error =
    | ValueError     // unsupported algorithm version
    | OverflowError  // a value that does not fit a 4-byte unsigned field
    | KeyError       // unknown template type or character-group tag
    | IndexError     // the seed is too short for the template

  datatype Result<+T> = Ok(value: T) | Err(error: Error) {
    predicate IsFailure() {
      Err?
    }

    function PropagateFailure<U>(): Result<U>
      requires Err?
    {
      Err(error)
    }

    function Extract(): T
      requires Ok?
    {
      value
    }
  }

  datatype Option<+T> = None | Some(value: T)
}
