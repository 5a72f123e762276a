/** The optional value used wherever the source returns `null` or
    reads a property that may be `undefined`. */
module Options {

  datatype Option<+T> = None | Some(value: T)
}
