module Options {

  /** A Swift optional. */
  datatype Option<+T> = None | Some(value: T)
}
