/** The result of an operation that can refuse its input. */
module Options {
  datatype Option<+T> = None | Some(value: T)
}
