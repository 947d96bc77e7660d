/** The optional value used for absent dictionary keys, `None` results and JavaScript `null`. */
module Options {
  datatype Option<+T> = None | Some(value: T) {
    /** Python's `d.get(key, default)` once the lookup is done. */
    function GetOr(default: T): T {
      match this
      case Some(v) => v
      case None => default
    }
  }
}
