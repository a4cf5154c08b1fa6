/** The option and result datatypes every other module uses. */
module Common {

  datatype Option<+T> = None | Some(value: T)

  datatype Result<+T, +E> = Ok(value: T) | Err(error: E)

  /** The last element of a sequence. */
  function Last<T>(s: seq<T>): (t: T)
    requires s != []
  {
    s[|s| - 1]
  }
}
