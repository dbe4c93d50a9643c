/** Failure-carrying values shared by every module of the model.
    A server action that throws `new Error(msg)` is modelled as `Err(msg)`. */
module Results {

  datatype Option<+T> = None | Some(value: T) {

    /** The value if present, otherwise `default` (JavaScript's `x ?? default`). */
    function GetOr(default: T): T {
      match this
      case Some(v) => v
      case None => default
    }
  }

  datatype Result<+T> = Ok(value: T) | Err(message: string)
}
