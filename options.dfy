/** The optional value used across the model: the source's `undefined` is None. */
module Options {
  datatype Option<T> = None | Some(value: T)
}
