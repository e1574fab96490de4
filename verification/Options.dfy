/** Values that may be missing: a nullable column, an optional header, a search without a hit. */
module Options {
  datatype Option<+T> = None | Some(value: T)
}
