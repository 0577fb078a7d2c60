/** An optional value: a Go pointer, nil-able slice or comma-ok result. */
module Options {
  datatype Option<+T> = None | Some(value: T)
}
