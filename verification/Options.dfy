/** An optional value: a pointer that may be null, a lookup that may fail. */
module Options {
  datatype Option<T> = None | Some(value: T)
}
