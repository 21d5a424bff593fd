/** Optional values, used where the program has null, None or a missing key. */
module Wrappers {
  datatype Option<+T> = None | Some(value: T) {
    function GetOr(default: T): T {
      match this
      case Some(v) => v
      case None => default
    }
  }

  /** The program's raised errors, without their wording. */
  datatype Result<+T> = Ok(value: T) | Rejected
}
