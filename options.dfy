/** The optional result of a reader that can run off the end of its input. */
module Options {
  datatype Option<T> = None | Some(value: T)
}
