/** The optional value used for the normalisers' "null means rejected" results. */
module Options {

  datatype Option<+T> = None | Some(value: T)
}
