// The value-or-nothing result that the source writes as `X | None`.
module Options {
  datatype Option<+T> = None | Some(value: T)
}
