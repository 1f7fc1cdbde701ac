/** Outcome types standing in for the exceptions the services throw. */
module Results {

  datatype Option<+T> = None | Some(value: T)

  datatype Result<+R, +E> = Success(value: R) | Failure(error: E)

  datatype Outcome<+E> = Pass | Fail(error: E)

  /** The two exception classes the core throws, with their messages. */
  datatype Failure =
    | IllegalArgument(message: string)  // java.lang.IllegalArgumentException
    | Runtime(message: string)          // java.lang.RuntimeException
}
