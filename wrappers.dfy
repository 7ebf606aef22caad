/** Option values (Python's `None` or a value) and the exceptions the
    modelled code can raise, as a result type. */
module Wrappers {

  datatype Option<+T> = None | Some(value: T)

  /** The Python exceptions raised by the modelled code. */
  datatype Exc =
    | ValueError(msg: string)
    | KeyError(key: string)
    | TypeError(msg: string)
    | CalledProcessError(returncode: int)

  /** A call that either returns a value or raises an exception. */
  datatype Result<+T> = Ok(value: T) | Raised(exc: Exc)

  /** Python truthiness of an optional string: `None` and `''` are falsy. */
  predicate Truthy(s: Option<string>)
  {
    s.Some? && s.value != ""
  }

  /** The text Python's `str.format` gives an optional string. */
  function Text(o: Option<string>): string
  {
    if o.Some? then o.value else "None"
  }
}
