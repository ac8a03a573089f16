/** Optional values and JavaScript-style thrown errors, shared by the other modules. */
module Results {

  /** A value that may be absent. Each use says what absence means there. */
  datatype Option<+T> = None | Some(value: T)

  /** The outcome of an expression that may throw; `Thrown` carries the error's message. */
  datatype Result<+T> = Ok(value: T) | Thrown(message: string)
}
