/** Optional values and request outcomes shared by every module.

    The HTTP handlers of the system answer either with a payload or with one
    of five error statuses; `Result` carries exactly that choice. */
module Wrappers {

  /** A value that may be missing (`undefined` / `null` in the system). */
  datatype Option<+T> = None | Some(value: T) {

    /** The value, or `default` when missing (the `x ?? default` idiom). */
    function GetOr(default: T): T
    {
      match this
      case Some(v) => v
      case None => default
    }
  }

  /** The error statuses the handlers answer with. */
  datatype Failure = BadRequest | Unauthorized | Forbidden | NotFound | ServerError {

    /** The HTTP status code of the failure. */
    function Code(): nat
    {
      match this
      case BadRequest => 400
      case Unauthorized => 401
      case Forbidden => 403
      case NotFound => 404
      case ServerError => 500
    }
  }

  /** A handler's answer: a payload, or a failure status. */
  datatype Result<+T> = Ok(value: T) | Err(failure: Failure)

  /** JavaScript truthiness of an optional string: present and non-empty. */
  predicate Truthy(s: Option<string>)
  {
    s.Some? && s.value != ""
  }
}
