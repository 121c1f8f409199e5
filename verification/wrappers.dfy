/** Small failure-carrying datatypes shared by every module of the model. */
module Wrappers {

  /** A value that may be absent. */
  datatype Option<+T> = None | Some(value: T) {

    function GetOr(default: T): T {
      match this
      case Some(v) => v
      case None => default
    }
  }

  /**
   * The outcome of a PHP member whose declared parameter, property or return
   * type is enforced under `declare(strict_types=1)`: either the value passes
   * the type check, or a TypeError is thrown.
   */
  datatype Checked<+T> = Passes(value: T) | TypeError
}
