/** An optional value: the Python code's `None` versus a value. */
module Options {
  datatype Option<T> = None | Some(value: T)
}
