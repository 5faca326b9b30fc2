/** Small value types shared by the whole model. */
module Types {

  /** Python's `None` or a value. */
  datatype Option<+T> = None | Some(value: T) {
    function GetOr(default: T): T {
      match this
      case Some(v) => v
      case None => default
    }
  }

  /** One element of a Python `bytes` object. */
  newtype byte = x: int | 0 <= x < 256
}
