/** Failure-carrying values shared by every module of the model: the Go
    code's `(value, error)` returns become `Result`, and its nil-able
    pointers become `Option`. */
module Results {

  datatype Option<+T> = None | Some(value: T)

  datatype Result<+T, +E> = Success(value: T) | Failure(error: E) {
    predicate IsFailure() {
      Failure?
    }
  }
}
