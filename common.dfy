/** Small shared vocabulary: optional values, results and HTTP status codes. */
module Common {

  datatype Option<T> = None | Some(value: T)

  datatype Result<T, E> = Ok(value: T) | Err(error: E)

  /** An HTTP status code (three decimal digits). */
  newtype StatusCode = x: int | 100 <= x < 1000 witness 200

  const BAD_REQUEST: StatusCode := 400
  const NOT_FOUND: StatusCode := 404
  const INTERNAL_SERVER_ERROR: StatusCode := 500
}
