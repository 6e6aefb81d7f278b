/** A value that may be missing: a null pointer, an absent key, a slot not chosen. */
module Options {
  datatype Option<+T> = None | Some(value: T)
}
