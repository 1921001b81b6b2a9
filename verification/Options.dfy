/** The one optional value every module of the project reads. */
module Options {
  datatype Option<+T> = None | Some(value: T)
}
