/** Nullable values and failing computations, shared by every module.

    `Option` stands for a C#/Java reference that may be null; `Result`
    stands for a computation that either returns normally or throws. */
module Wrappers {

  datatype Option<+T> = None | Some(value: T) {

    function GetOr(default: T): T {
      match this
      case Some(v) => v
      case None => default
    }
  }

  /** The exception a member throws, reduced to its type, the parameter it
      names (for argument exceptions) and its message. */
  datatype Error =
    | ArgumentException(paramName: string, message: string)
    | ArgumentNullException(paramName: string, message: string)
    | IllegalStateException(message: string)
    | OperationCanceledException
    | NullReferenceException

  datatype Result<+R> = Success(value: R) | Failure(error: Error) {

    predicate IsFailure() {
      Failure?
    }

    function PropagateFailure<U>(): Result<U>
      requires Failure?
    {
      Failure(error)
    }

    function Extract(): R
      requires Success?
    {
      value
    }
  }
}
