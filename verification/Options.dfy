/** An optional value: the source's `null` or `undefined`. */
module Options {
  datatype Option<+T> = None | Some(value: T)
}
