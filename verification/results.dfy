/** Optional values and success/failure results, used for nullable fields and for
    the exceptions the services and stores throw. */
module Results {

  /** A value that may be absent; `None` stands for Java's `null`. */
  datatype Option<+T> = None | Some(value: T)

  /** The outcome of an operation that either returns a value or throws. */
  datatype Result<+T, +E> = Ok(value: T) | Err(error: E) {

    /** Forgets the success value, keeping only whether and why it failed. */
    function MapOk(): Result<(), E> {
      match this
      case Ok(_) => Ok(())
      case Err(e) => Err(e)
    }
  }
}
