module Options {

  /** A value that the source marks absent with NULL or a flag. */
  datatype Option<+T> = None | Some(value: T)
}
