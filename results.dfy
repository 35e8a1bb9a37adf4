/** Failure-carrying results shared by every module: a fatal path of the
    program (an exception, an `exit(1)`) becomes a `Failure` value. */
module Results {

  datatype Option<+T> = None | Some(value: T)

  datatype Result<+T, +E> = Success(value: T) | Failure(error: E)
}
