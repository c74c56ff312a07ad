/** Values shared by every part of the model: optional values, the two
    exception kinds the services throw, results, identifiers and times. */
module Common {

  datatype Option<+T> = None | Some(value: T)

  /** The two HTTP exceptions the services throw, with their messages. */
  datatype Error = NotFound(message: string) | BadRequest(message: string)

  /** A service call either returns a value or throws one of the errors. */
  datatype Result<+T> = Ok(value: T) | Err(error: Error)

  /** Row identifiers (uuids in the database) and cache keys are strings. */
  type Id = string

  /** Instants are integer milliseconds since the epoch. */
  type Time = int

  /** One hour in milliseconds, as the services write it: 1000 * 60 * 60. */
  const MsPerHour: int := 1000 * 60 * 60

  /** JavaScript truthiness of an optional string: present and not empty. */
  predicate Truthy(s: Option<string>) {
    s.Some? && s.value != ""
  }
}
