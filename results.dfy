/** Failure-compatible wrappers shared by every module: a Python call that
    raises is modelled by an `Err`, a missing value (NaN, no match) by `None`. */
module Results {

  datatype Option<T> = None | Some(value: T)

  datatype Result<T, E> = Ok(value: T) | Err(error: E)
}
