/** The Option datatype shared by every module of the model: `None` stands for
    a lookup that found nothing, a parse that failed or an absent storage entry. */
module Wrappers {

  datatype Option<+T> = None | Some(value: T) {

    /** Returns the value encapsulated in Some, or `default` if None */
    function GetOr(default: T): T {
      match this
      case Some(v) => v
      case None => default
    }
  }
}
