/** A value that may be missing: no Leo item for a symbol, no predecessor, no separator, no child. */
module Options {
  datatype Option<+T> = None | Some(value: T)
}
