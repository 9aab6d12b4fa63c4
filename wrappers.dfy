/** The optional-value and result wrappers shared by the model's modules. */
module Wrappers {

  /** An optional value: the absent case of a regex match, of a dictionary entry, of a file. */
  datatype Option<+T> = None | Some(value: T)

  /** A value or the error an endpoint answers with. */
  datatype Result<+R, +E> = Success(value: R) | Failure(error: E)
}
