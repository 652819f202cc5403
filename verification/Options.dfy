/** The optional values and fallible results of the node's signatures. */
module Options {
  datatype Option<+T> = None | Some(value: T)

  datatype Result<+T, +E> = Ok(value: T) | Err(error: E)

  function UnwrapOr<T>(o: Option<T>, default: T): T {
    if o.Some? then o.value else default
  }
}
