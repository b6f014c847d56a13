/** Option and Result: the model's stand-ins for Go's nil-able values and
    for the fatal setup paths (log.Fatal / zap Panic), which here become a
    Failure value that the caller sees. */
module Results {

  datatype Option<+T> = None | Some(value: T)

  datatype Result<+T, +E> = Success(value: T) | Failure(error: E)
}
