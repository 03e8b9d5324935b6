/** The two failure-carrying results shared by the model: an absent value, and a
    call that either returns or raises. */
module Results {

  datatype Option<+T> = None | Some(value: T)

  /** `Ok(v)` is a normal return of v, `Err(e)` is the raised exception e. */
  datatype Result<+T, +E> = Ok(value: T) | Err(error: E)
}
