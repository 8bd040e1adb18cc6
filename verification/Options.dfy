/** The optional values that stand for the source's `None`, empty string and missing key. */
module Options {
  datatype Option<+T> = None | Some(value: T)
}
