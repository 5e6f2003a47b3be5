/** Result types shared by the handlers: an HTTP status code becomes a constructor. */
module Outcomes {

  datatype Option<T> = None | Some(value: T)

  /** The failures the handlers answer with (HTTP status in brackets). */
  datatype Failure =
    | InvalidInput       // a required field is blank after trimming (400)
    | DuplicateUsername  // register with a username already present (400)
    | BadCredential      // unknown username or wrong password (401)
    | NotFound           // no task with that id owned by the caller (404)

  datatype Result<T> = Ok(value: T) | Err(failure: Failure)
}
