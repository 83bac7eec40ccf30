module Options {

  /** A value that may be absent: a NULL pointer, a full queue's refusal, an empty slot. */
  datatype Option<+T> = None | Some(value: T) {
    function GetOr(default: T): T {
      match this
      case Some(v) => v
      case None => default
    }
  }
}
