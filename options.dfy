/** Python's `None`-or-value, for the optional audio path and API key. */
module Options {

  datatype Option<T> = None | Some(value: T)
}
