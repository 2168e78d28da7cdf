/** The value a C pointer may lack. */
module Options {
  datatype Option<+T> = None | Some(value: T)
}
