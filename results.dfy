/**
 * Option and Result: Go's nil pointers and `(value, error)` return pairs,
 * written as values.
 */
module Results {

  datatype Option<+T> = None | Some(value: T)

  datatype Result<+T, +E> = Ok(value: T) | Err(error: E)
}
