/** Optional values, standing in for the source's nullable references and
    nullable value types (`int?`, `DateTime?`, `CommissionPaymentMethod?`). */
module Wrappers {

  datatype Option<+T> = None | Some(value: T) {

    /** Returns the value, or `default` when there is none (C#'s `??`). */
    function GetOr(default: T): T {
      match this
      case Some(v) => v
      case None => default
    }
  }
}
