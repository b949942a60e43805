/** An optional result, for the pair of a value and a flag that the source returns. */
module Options {
  datatype Option<+T> = None | Some(value: T)
}
