/** The optional value used where the client holds a nullable pointer. */
module Options {
  datatype Option<+T> = None | Some(value: T)
}
