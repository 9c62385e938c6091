/** The `Option` of the program's signatures: a value, or nothing. */
module Optional {
  datatype Option<+T> = None | Some(value: T)
}
