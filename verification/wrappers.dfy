/** Option and Result values used for the source's None and its exceptions,
    and the string type shared by every module. */
module Wrappers {

  /** A Python `str`. */
  type Text = seq<char>

  datatype Option<+T> = None | Some(value: T)

  datatype Result<+T, +E> = Success(value: T) | Failure(error: E)
}
