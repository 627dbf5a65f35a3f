/** The optional value used for absent query parameters and failed matches. */
module Options {

  datatype Option<+T> = None | Some(value: T)
}
