/** The two wrapper datatypes the other modules share: a value that may be absent,
    and the result of an operation that may fail. */
module Wrappers {

  datatype Option<+T> = None | Some(value: T)

  /** `Failure` stands for a returned Go error; its text plays no part in any property here. */
  datatype Result<+T> = Failure | Success(value: T)
}
