/** The error values shared by the matrix engine and the formula evaluator. */
module Wrappers {

  /** The one error the engine reports: operands whose shapes do not fit ("diff size"). */
  datatype Error = DiffSize

  /** A Go `error` return value: `nil` (Pass) or an error (Fail). */
  datatype Outcome = Pass | Fail(error: Error)

  /** A Go `(value, error)` pair in which exactly one side is meaningful.
      It supports `:-`, which plays the part of `if err != nil { return nil, err }`. */
  datatype Result<T> = Ok(value: T) | Err(error: Error) {

    predicate IsFailure() {
      Err?
    }

    function PropagateFailure<U>(): Result<U>
      requires Err?
    {
      Err(error)
    }

    function Extract(): T
      requires Ok?
    {
      value
    }
  }
}
