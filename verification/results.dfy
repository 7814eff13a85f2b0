/** Failure-carrying wrappers used by the planner and its helpers. */
module Results {

  /** An optional value: a lookup that can miss. */
  datatype Option<+T> = None | Some(value: T)

  /** Either a computed value or the error that stopped the computation. */
  datatype Result<+T, +E> = Ok(value: T) | Err(error: E)
}
