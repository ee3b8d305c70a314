/** The optional value used throughout the model: a JSON field that may be
    absent, a list entry a user may not have, a status that may not classify. */
module Options {

  datatype Option<+T> = None | Some(value: T)
}
