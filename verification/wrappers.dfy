/** Optional values and the three HTTP outcomes the controllers return. */
module Wrappers {

  /** A nullable value (`int?`, `double?`, a reference that may be null). */
  datatype Option<+T> = None | Some(value: T) {

    /** The `??` operator: the value, or `default` when absent. */
    function GetOr(default: T): T {
      match this
      case Some(v) => v
      case None => default
    }
  }

  /**
    The outcome of a controller action: `Ok(...)`, `NotFound(...)` or
    `BadRequest(...)`; an action that changes the store answers `Response<()>`.
  */
  datatype Response<+T> = Ok(value: T) | NotFound | BadRequest
}
