/** The optional value used wherever the tools hold "something or nothing":
    a held axis lock, a reference point handed to the point picker, the
    hovered entity, a parsed length or a face count the host may report
    as nil. */
module Options {

  datatype Option<+T> = None | Some(value: T) {

    /** Returns the value held in Some, or `default` for None. */
    function GetOr(default: T): T {
      match this
      case Some(v) => v
      case None => default
    }
  }
}
