/** Python's `X | None`: a value that may be missing. */
module Optional {

  datatype Option<+T> = None | Some(value: T)
}
