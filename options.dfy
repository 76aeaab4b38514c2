/** The optional value that JavaScript spells as `null`, `undefined` or `NaN`. */
module Options {

  datatype Option<+T> = None | Some(value: T)
}
