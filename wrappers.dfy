/** Small value wrappers shared by every module of the model. */
module Wrappers {

  /** A nullable value: a database column with `null=True`, or Python's `None`. */
  datatype Option<T> = None | Some(value: T) {
    function GetOr(default: T): T {
      match this
      case Some(v) => v
      case None => default
    }
  }

  /** The outcome of an operation that may raise an error. */
  datatype Result<T, E> = Ok(value: T) | Err(error: E)

  /** A key of a request payload that the client may leave out
      (`validated_data.get(key, default)`). */
  datatype Field<T> = Absent | Given(value: T) {
    function GetOr(default: T): T {
      match this
      case Given(v) => v
      case Absent => default
    }
  }
}
