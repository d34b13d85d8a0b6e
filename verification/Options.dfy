/** The conventional optional value, used where the source has a null pointer or a failed lookup. */
module Options {
  datatype Option<+T> = None | Some(value: T)
}
