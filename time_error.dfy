/** The error identifiers the data layer throws or rejects with.

    modules/TimeError.js declares only NOT_FOUND, BAD_CONNECTION and INVALID_TYPE, but the
    throw sites of the modelled modules also name INVALID_STATE, INVALID_ACTION,
    INCORRECT_FORMAT and the two category errors; all of them are listed here. */
module TimeError {

  datatype Error =
    | NotFound                      // Data.NOT_FOUND: no row with the requested id
    | BadConnection                 // Data.BAD_CONNECTION: a read query failed
    | IncorrectFormat               // Data.INCORRECT_FORMAT: email or password rejected
    | InvalidType                   // Request.INVALID_TYPE: a value of the wrong kind was assigned
    | InvalidState                  // Request.INVALID_STATE: the record is not in a state that allows the call
    | InvalidAction                 // Request.INVALID_ACTION: the call is not allowed now
    | InsufficientParentOrAccount   // Category.INSUFFICIENT_PARENT_OR_ACCOUNT
    | InconsistentParentAndAccount  // Category.INCONSISTENT_PARENT_AND_ACCOUNT
    | DatabaseError                 // any other error of the database driver or query builder, rethrown unchanged

  /** The value a promise resolves with, or the error it is rejected with (or that is thrown). */
  datatype Result<+T> = Ok(value: T) | Err(error: Error)

  /** A call that returns nothing on success, or fails with an error. */
  datatype Outcome = Pass | Fail(error: Error)
}
