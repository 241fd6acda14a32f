/** Failure-compatible result types shared by every module of the model.
    Go's `(T, error)` pairs become `Result<T>`; a bare `error` becomes `Option<string>`. */
module Wrappers {

  datatype Option<+T> = None | Some(value: T)

  /** A value or an error message. */
  datatype Result<+T> = Ok(value: T) | Err(error: string) {

    predicate IsFailure() {
      Err?
    }

    function PropagateFailure<U>(): Result<U>
      requires Err?
    {
      Err(error)
    }

    function Extract(): T
      requires Ok?
    {
      value
    }
  }
}
