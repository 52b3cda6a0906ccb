/** A value that may be absent: a failed match, a step that is not enabled, an index out of range. */
module Options {
  datatype Option<+T> = None | Some(value: T)
}
