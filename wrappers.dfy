/** Option and Result, the failure-carrying values the rest of the model returns
    where the Python code raises or returns None. */
module Wrappers {

  datatype Option<+T> = None | Some(value: T)

  datatype Result<+R, +E> = Success(value: R) | Failure(error: E)

  /** What a Django `objects.get(...)` lookup yields: exactly one row, none
      (DoesNotExist) or several (MultipleObjectsReturned). */
  datatype Lookup<+T> = Found(item: T) | Missing | Ambiguous
}
