/** Outcomes of the modelled operations: a value, or the Python exception the
    source raises instead of returning one. */
module Outcomes {

  datatype Option<+T> = None | Some(value: T)

  /** The exception classes raised by the modelled core. The message is kept
      where the source builds one that a caller can see. */
  datatype PyError =
    | ValueError(message: string)
    | AssertionError
    | Warning(message: string)
    | NotADirectoryError(message: string)
    | NotImplementedError
    | TypeError(message: string)
    | AttributeError(name: string)
    | ZeroDivisionError
    | CalledProcessError(cmd: seq<string>)

  /** What `functools.reduce` raises on an empty sequence with no initial value. */
  const EmptyReduce: PyError := TypeError("reduce() of empty iterable with no initial value")

  datatype Result<+T> = Ok(value: T) | Err(error: PyError) {
    predicate IsFailure() { Err? }

    function PropagateFailure<U>(): Result<U>
      requires Err?
    {
      Err(error)
    }

    function Extract(): T
      requires Ok?
    {
      value
    }
  }
}
