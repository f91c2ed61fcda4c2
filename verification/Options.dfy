/** The one optional type the model uses for Go's nil pointers, `value, ok` results and errors. */
module Options {
  datatype Option<+T> = None | Some(value: T)
}
