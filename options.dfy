/** The optional value used wherever the program works with `None`. */
module Options {
  datatype Option<+T> = None | Some(value: T)
}
