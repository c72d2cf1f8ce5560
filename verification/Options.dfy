/** The one type that every model shares. */
module Options {
  datatype Option<T> = None | Some(value: T)
}
