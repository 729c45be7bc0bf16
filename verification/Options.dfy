/** A value that may be absent, or an operation that may refuse. */
module Options {
  datatype Option<T> = None | Some(value: T)
}
