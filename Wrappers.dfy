/** Optional values (a C# reference that may be null) and results of constructors that throw. */
module Wrappers {

  /** A possibly-null reference: `None` stands for `null`. */
  datatype Option<+T> = None | Some(value: T)

  /** The outcome of a constructor that validates its arguments: the built value, or the
      name of the parameter an `ArgumentNullException` would report. */
  datatype Result<+T, +E> = Ok(value: T) | Err(error: E)
}
