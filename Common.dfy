/** Failure-carrying values shared by every module: Java's null becomes
    `Option`, a thrown exception becomes the `Err`/`Fail` side of `Result`
    and `Outcome`, and `Error` names the exception classes the core throws. */
module Common {

  datatype Option<+T> = None | Some(value: T)

  /** The Java exceptions that cross the core's boundaries. A wrapping
      `RuntimeException(message, cause)` keeps its cause. */
  datatype Error =
    | IllegalArgument(message: string)
    | IllegalState(message: string)
    | NullPointer
    | SerializationFailure
    | ValidationFailure(reason: string)
    | Runtime(message: string, cause: Option<Error>)

  /** A value, or the exception that was thrown instead. */
  datatype Result<+T> = Ok(value: T) | Err(error: Error)

  /** A `void` Java call: it returned normally, or it threw. */
  datatype Outcome = Pass | Fail(error: Error)
}
