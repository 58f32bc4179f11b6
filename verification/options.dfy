/** A value that may be absent: the model's stand-in for a `null`/`undefined`
    result or an unattached element reference. */
module Options {

  datatype Option<+T> = None | Some(value: T) {

    /** The carried value, or `default` when there is none. */
    function GetOr(default: T): T {
      match this
      case Some(v) => v
      case None => default
    }
  }
}
