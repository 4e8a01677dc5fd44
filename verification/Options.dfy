// A value that may be missing: `undefined`, `null` or an absent entry.
module Options {
  datatype Option<T> = None | Some(value: T)
}
