/** Optional values (a JavaScript `undefined`/`null`) and results of remote calls. */
module Wrappers {

  datatype Option<T> = None | Some(value: T) {
    /** The value, or `default` when there is none (the `??` of the source). */
    function GetOr(default: T): T {
      match this
      case Some(v) => v
      case None => default
    }
  }

  /** The outcome of one remote call: rows (or a row) or an error carrying its code. */
  datatype Result<T> = Ok(value: T) | Err(code: string)
}
