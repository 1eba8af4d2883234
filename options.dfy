/** The optional value that stands for a Java reference that may be null. */
module Options {
  datatype Option<+T> = None | Some(value: T)
}
