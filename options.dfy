/** The optional value used throughout the model: an absent object property,
    a failed number parse, an empty edit slot. */
module Options {
  datatype Option<+T> = None | Some(value: T)
}
