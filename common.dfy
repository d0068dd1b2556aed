/** Types shared by every component of the model: optional values, the outcome of a
    handler, the error kinds a handler answers with, and parsed JSON request values. */
module Common {

  datatype Option<+T> = None | Some(value: T)

  /** What a handler returns: a value, or the error it reports to the client. */
  datatype Result<+T> = Ok(value: T) | Err(error: Failure)

  /** A check or handler that only succeeds or fails. */
  datatype Outcome = Pass | Fail(error: Failure)

  /** Every error condition the handlers report, one constructor per message. */
  datatype Failure =
    | SpecimenEmpty              // validate_specimen_number: empty input
    | SpecimenCharset            // validate_specimen_number: character outside [A-Za-z0-9_-]
    | SpecimenTooLong            // validate_specimen_number: more than 50 characters
    | MissingFields              // generate_qrcode: a required field is empty
    | InvalidFileName            // validate_file_security: secured file name is empty
    | FileTooLarge               // validate_file_security: upload over 100 MB
    | Unauthorized               // every admin handler: no valid session
    | RecordNotFound             // update_record / delete_record: unknown id
    | MissingRequiredFields      // update_record: a required key is absent
    | ConfigFormat(key: string)  // update_config: key missing or not a list
    | ConfigEmpty(key: string)   // update_config: cleaned list is empty
    | PasswordRequired           // admin_login_post: no password given
    | WrongPassword              // admin_login_post: hash mismatch
    | IncompleteInput            // change_password: a field is empty
    | PasswordTooShort           // change_password: fewer than 6 characters
    | PasswordTooLong            // change_password: more than 50 characters
    | PasswordDangerousChar      // change_password: one of < > " ' & \ /
    | WrongCurrentPassword       // change_password: current password hash mismatch

  /** A parsed JSON value, as far as the handlers inspect it: strings, lists, and
      everything else (numbers, booleans, null, objects) lumped together. */
  datatype JsonValue = JString(s: string) | JList(items: seq<JsonValue>) | JOther

  function Min(a: int, b: int): int {
    if a <= b then a else b
  }
}
