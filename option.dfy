/** The Some/None datatype that stands for Ruby values that may be `nil`. */
module Optional {

  datatype Option<+T> = None | Some(value: T) {

    /** The wrapped value, or `default` when None (Ruby's `x || default` on a non-boolean `x`). */
    function GetOr(default: T): T
    {
      match this
      case Some(v) => v
      case None => default
    }
  }
}
