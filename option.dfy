/** An optional value, for Python's `Optional[...]` results. */
module Optional {
  datatype Option<+T> = None | Some(value: T)
}
