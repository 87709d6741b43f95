/** UUIDs and the result types the modules share. */
module Wrappers {
  /** A UUID as its value, whose order is the order of the canonical strings. */
  type Uuid = nat

  /** uuid.Nil, which identifies nobody. */
  const NIL_UUID: Uuid := 0

  datatype Option<+T> = None | Some(value: T)

  datatype Result<+T, +E> = Ok(value: T) | Err(error: E)
}
