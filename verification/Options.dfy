/** The optional value used for Go's nil pointers, missing map entries and "value, ok" results. */
module Options {
  datatype Option<+T> = None | Some(value: T)
}
