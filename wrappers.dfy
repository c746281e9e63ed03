/** Optional values and results, used where the components read `undefined`,
    a missing DOM reference, or raise an error. */
module Wrappers {

  /** A value that may be absent (`undefined` or `null` in the components). */
  datatype Option<+T> = None | Some(value: T)

  /** The outcome of an operation that may throw. */
  datatype Result<+T, +E> = Ok(value: T) | Err(error: E)

  /** JavaScript truthiness of an optional string: present and non-empty. */
  predicate Truthy(s: Option<string>) {
    s.Some? && s.value != ""
  }
}
