/** The optional value used across the model. */
module Maybe {
  datatype Option<+T> = None | Some(value: T)
}
