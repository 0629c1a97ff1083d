/** The optional value used where euroclaw returns `T | null` or `T | undefined`. */
module Options {
  datatype Option<+T> = None | Some(value: T)
}
