/** The optional value used wherever the source has `T | undefined` or `T | null`. */
module Options {

  datatype Option<+T> = None | Some(value: T)
}
