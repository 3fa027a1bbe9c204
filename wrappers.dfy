/** The optional value used across the model: a missing database row, an absent
    JSON field, a `null` in the front end. */
module Wrappers {

  datatype Option<+T> = None | Some(value: T)
}
