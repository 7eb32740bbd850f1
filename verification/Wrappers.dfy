/** Results shared by the models: Python exceptions and process exits become failure values. */
module Wrappers {
  datatype Option<+T> = None | Some(value: T)

  /** The exceptions that end a run, and `sys.exit` itself. */
  datatype Error = ValueError | IndexError | UnboundLocalError | AttributeError | SystemExit

  datatype Result<+T> = Success(value: T) | Failure(error: Error) {
    predicate IsFailure() {
      Failure?
    }

    function PropagateFailure<U>(): Result<U>
      requires Failure?
    {
      Failure(error)
    }

    function Extract(): T
      requires Success?
    {
      value
    }
  }
}
