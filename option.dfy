/** An optional value, for outputs a step may or may not produce. */
module Options {
  datatype Option<T> = None | Some(value: T)
}
