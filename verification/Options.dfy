/** Values that may be missing: buckets without an item, unsigned inputs, failed lookups. */
module Options {
  datatype Option<+T> = None | Some(value: T)
}
