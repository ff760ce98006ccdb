/** The optional value used throughout the model: `None` stands for a value
    JavaScript would report as `undefined` (an absent field, a dismissed
    dialog, nothing written). */
module Optional {

  datatype Option<+T> = None | Some(value: T) {

    /** Returns the value held in `Some`, or `default` for `None`. */
    function GetOr(default: T): (r: T)
      ensures Some? ==> r == value
      ensures None? ==> r == default
    {
      match this
      case Some(v) => v
      case None => default
    }
  }
}
