/** Python's `Optional[...]`: a value that may be absent (`None`). */
module Options {

  datatype Option<+T> = None | Some(value: T) {

    /** `x if x is not None else default`, as `dict.get(key, default)` does. */
    function GetOr(default: T): T {
      match this
      case Some(v) => v
      case None => default
    }
  }
}
