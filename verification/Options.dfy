/** Shared result wrapper. */
module Options {

  datatype Option<+T> = None | Some(value: T)
}
