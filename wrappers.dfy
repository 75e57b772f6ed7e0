/** The optional value that the ORM's `.first()` returns: a record or nothing. */
module Wrappers {

  datatype Option<+T> = None | Some(value: T)
}
