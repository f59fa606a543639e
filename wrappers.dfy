/** Optional values and results, used for Java's nullable references and thrown exceptions. */
module Wrappers {

  /** `None` stands for a Java `null` reference (or an absent entry), `Some(v)` for a present value. */
  datatype Option<+T> = None | Some(value: T)

  /** The outcome of a Java call that either returns a value or throws. */
  datatype Result<+T, +E> = Ok(value: T) | Err(error: E)
}
