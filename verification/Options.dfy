/** A value that may be absent: C's NULL and -1 results. */
module Options {
  datatype Option<+T> = None | Some(value: T)
}
