/** The usual optional value, standing for C++'s std::optional. */
module Options {
  datatype Option<+T> = None | Some(value: T)
}
