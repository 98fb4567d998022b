/** Option and Result: the nullable values and thrown errors of the monitor. */
module Wrappers {

  datatype Option<+T> = None | Some(value: T) {
    function GetOr(default: T): T {
      match this
      case Some(v) => v
      case None => default
    }
  }

  /** `Err(message)` stands for a thrown `Error(message)`. */
  datatype Result<+T> = Ok(value: T) | Err(message: string)
}
