/** Failure-carrying results shared by the model: `Option` stands for a Java
    reference that may be null (a lookup miss), `Result` for an operation that
    may throw instead of returning. */
module Wrappers {

  datatype Option<T> = None | Some(value: T)

  /** The exceptions the engine throws synchronously on bad arguments. */
  datatype Error =
    | IllegalArgument   // java.lang.IllegalArgumentException
    | NullPointer       // java.lang.NullPointerException (Lombok @NonNull check)

  datatype Result<T> = Success(value: T) | Failure(error: Error)
}
