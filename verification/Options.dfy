/** The optional value the other modules use for the source's `null` and `undefined`. */
module Options {

  datatype Option<+T> = None | Some(value: T)
}
