/** The usual Some/None wrapper, for a parse or a read that may fail. */
module Optional {

  datatype Option<+T> = None | Some(value: T)
}
