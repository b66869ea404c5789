/** The optional value shared by the modules of the model. */
module Options {
  datatype Option<+T> = None | Some(value: T)
}
