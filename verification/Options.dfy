/** A value or its absence: `null`, `undefined`, or a call that throws. */
module Options {
  datatype Option<+T> = None | Some(value: T)
}
