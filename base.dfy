/** Values shared by every part of the model. */
module Base {

  /** An optional value: `None` stands for an absent (undefined or null) field. */
  datatype Option<T> = None | Some(value: T) {

    /** The value, or `default` when absent. */
    function GetOr(default: T): T {
      match this
      case Some(v) => v
      case None => default
    }
  }

  /** A point in time, in milliseconds since the Unix epoch. */
  type Time = int

  /** An HTTP reply: a success status with its JSON payload, or an error
      status with the message the handler sends back. */
  datatype Reply<T> = Ok(status: int, value: T) | Err(status: int, message: string)
}
