/** The optional value used for Python results that may raise instead of returning. */
module Wrappers {

  datatype Option<+T> = None | Some(value: T)
}
