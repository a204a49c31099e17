/** The conventional optional value: a null pointer or an absent entry in the source. */
module Options {
  datatype Option<+T> = None | Some(value: T)
}
