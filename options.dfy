/** An optional value: stands for JavaScript's `null`/`undefined` next to a
    present value, and for the absent result of a lookup. */
module Options {
  datatype Option<+T> = None | Some(value: T)
}
