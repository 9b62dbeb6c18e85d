/** The optional value used where the source returns `undefined` or finds nothing. */
module Options {

  datatype Option<+T> = None | Some(value: T)

}
