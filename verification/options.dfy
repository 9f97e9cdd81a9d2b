/** The optional value used wherever App.js holds `null` or an absent property. */
module Options {

  datatype Option<+T> = None | Some(value: T)
}
