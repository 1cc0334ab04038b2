/** A value that may be missing: the model's stand-in for a pandas NaN / None cell. */
module Optional {

  datatype Option<+T> = None | Some(value: T) {

    /** The carried value, or `default` when the cell is missing. */
    function GetOr(default: T): T {
      match this
      case Some(v) => v
      case None => default
    }
  }
}
