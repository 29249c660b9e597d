/** Option, Result and Outcome: the shapes in which the modelled operations
    report success or one of the source's error values. Errors carry the text
    the source builds with `errors.New`, or that a library call returned. */
module Results {

  datatype Option<+T> = None | Some(value: T)

  /** A value-returning operation: `(T, nil)` or `(nil, err)` in the source. */
  datatype Result<+T> = Ok(value: T) | Err(error: string)

  /** An operation that returns only an `error`: `nil` or `err`. */
  datatype Outcome = Pass | Fail(error: string)
}
