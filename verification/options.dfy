/** The optional-value datatype shared by every module of the model. */
module Options {

  /** A PHP value that may be null (or an array slot that may be unset). */
  datatype Option<+T> = None | Some(value: T) {

    /** The carried value, or `default` when there is none. */
    function GetOr(default: T): T {
      match this
      case Some(v) => v
      case None => default
    }
  }
}
