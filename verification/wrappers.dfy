/** Failure-carrying values used wherever the system calls something that can fail
    (an embedding provider, the database, the auth service). */
module Wrappers {

  /** A value that may be absent: a missing request field, an unset environment
      variable, a null user. */
  datatype Option<+T> = None | Some(value: T)

  /** The outcome of a call that can fail with an error message. */
  datatype Result<+T> = Success(value: T) | Failure(error: string)

  /** JavaScript truthiness of an optional string: absent and `''` are both falsy. */
  predicate Present(s: Option<string>)
  {
    s.Some? && s.value != ""
  }
}
