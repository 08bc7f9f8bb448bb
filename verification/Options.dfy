/** A value that may be missing: the second result of a lookup, or a nil pointer. */
module Options {

  datatype Option<+T> = None | Some(value: T)
}
