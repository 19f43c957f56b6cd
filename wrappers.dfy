/** Optional values and results, standing in for Java's null and for a value-or-exception return. */
module Wrappers {

  /** A Java reference that may be null. */
  datatype Option<+T> = None | Some(value: T)

  /** A value, or the message of the checked exception that replaced it. */
  datatype Result<+T, +E> = Ok(value: T) | Err(error: E)
}
