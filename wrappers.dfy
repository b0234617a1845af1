/** The optional value used wherever the engine's JavaScript state may be
    `undefined` (a deleted field, a missing parameter object, an unset range). */
module Wrappers {

  datatype Option<+T> = None | Some(value: T) {

    /** The value, or `default` when there is none (the `??` operator). */
    function GetOr(default: T): T {
      match this
      case Some(v) => v
      case None => default
    }
  }
}
