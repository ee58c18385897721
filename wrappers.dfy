/** The optional value used for the nullable values of the command layer
    (`int?` actor ids, strings that may be null, `InnerSqlException`). */
module Wrappers {

  datatype Option<+T> = None | Some(value: T) {

    /** The value, or `default` when there is none (C#'s `??` and
        `GetValueOrDefault`). */
    function GetOr(default: T): T {
      match this
      case Some(v) => v
      case None => default
    }
  }
}
