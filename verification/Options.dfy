/** The Some/None type shared by the other modules; it stands for pointers that may be NULL. */
module Options {
  datatype Option<+T> = None | Some(value: T)
}
