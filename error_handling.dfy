/**
 * The application's error type and the translation of database errors into
 * it. `handleDatabaseError` never returns normally; the model gives the
 * error it throws as its result.
 */
module ErrorHandling {
  import opened Common

  /** A database error as the client library reports it: an optional code and a message. */
  datatype DatabaseError = DatabaseError(code: Option<string>, message: string)

  /** The `details` of a `KakeiboError`: the empty object by default, or the original error. */
  datatype Details = EmptyDetails | Original(error: DatabaseError)

  /** `KakeiboError`: an `Error` named "KakeiboError" with a code and details. */
  datatype KakeiboError = KakeiboError(name: string, message: string, code: string, details: Details)

  /** `new KakeiboError(message, code, details = {})`. */
  function NewKakeiboError(message: string, code: string, details: Option<DatabaseError>): (e: KakeiboError)
    ensures e.name == "KakeiboError" && e.message == message && e.code == code
    ensures details.None? ==> e.details == EmptyDetails
    ensures details.Some? ==> e.details == Original(details.value)
  {
    KakeiboError("KakeiboError", message, code,
      if details.Some? then Original(details.value) else EmptyDetails)
  }

  /** The PostgreSQL codes of a unique violation and of a foreign-key violation. */
  const UniqueViolation := "23505"
  const ForeignKeyViolation := "23503"

  /** The error `handleDatabaseError` throws for `error`. */
  function HandleDatabaseError(error: DatabaseError): (thrown: KakeiboError)
    ensures thrown.name == "KakeiboError"
    ensures thrown.details == Original(error)
  {
    if error.code == Some(UniqueViolation) then
      NewKakeiboError("Duplicate entry found", "DUPLICATE_ENTRY", Some(error))
    else if error.code == Some(ForeignKeyViolation) then
      NewKakeiboError("Referenced record not found", "FOREIGN_KEY_ERROR", Some(error))
    else
      NewKakeiboError("Database error occurred", "DATABASE_ERROR", Some(error))
  }

  /**
   * Code 23505 becomes DUPLICATE_ENTRY, 23503 becomes FOREIGN_KEY_ERROR,
   * and every other code, or none, becomes DATABASE_ERROR; the thrown
   * error always keeps the original as its details.
   */
  lemma CodeMapping(error: DatabaseError)
    ensures var e := HandleDatabaseError(error);
      && (e.code == "DUPLICATE_ENTRY" <==> error.code == Some(UniqueViolation))
      && (e.code == "FOREIGN_KEY_ERROR" <==> error.code == Some(ForeignKeyViolation))
      && (e.code == "DATABASE_ERROR" <==> error.code != Some(UniqueViolation) && error.code != Some(ForeignKeyViolation))
      && (e.code == "DUPLICATE_ENTRY" ==> e.message == "Duplicate entry found")
      && (e.code == "FOREIGN_KEY_ERROR" ==> e.message == "Referenced record not found")
      && (e.code == "DATABASE_ERROR" ==> e.message == "Database error occurred")
  {
  }

  /** The thrown error depends only on the original error's code, apart from the details it carries. */
  lemma DependsOnlyOnCode(a: DatabaseError, b: DatabaseError)
    requires a.code == b.code
    ensures HandleDatabaseError(a).(details := EmptyDetails) == HandleDatabaseError(b).(details := EmptyDetails)
  {
  }
}
