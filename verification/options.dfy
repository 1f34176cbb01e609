/** The optional values the source spells as `undefined` or a missing property. */
module Options {

  datatype Option<+T> = None | Some(value: T)

}
