/** Shared datatypes for the model. */
module Common {

  /** An optional value: `undefined`/`null` versus present. */
  datatype Option<+T> = None | Some(value: T) {
    function GetOr(default: T): T {
      match this
      case Some(v) => v
      case None => default
    }
  }
}
