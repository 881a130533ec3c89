/** Option and Result: the values the model returns where the source returns
    nothing or raises an exception (ValidationError, ValueError, Http404, ...). */
module Results {

  datatype Option<+T> = None | Some(value: T)

  datatype Result<+T, +E> = Success(value: T) | Failure(error: E)
}
