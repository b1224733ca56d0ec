/** Option and Result values, used where the integration either has no value
    (a saving that is not a number) or raises instead of returning. */
module Results {

  datatype Option<+T> = None | Some(value: T)

  datatype Result<+T, +E> = Success(value: T) | Failure(error: E)
}
