/**
 * The application's error values and the helpers that build, classify,
 * format and log them. An error is a record of its message, its HTTP status
 * code, its type tag and its `isOperational` flag; `None` stands for a
 * property the error object does not have (a plain `new Error(message)` has
 * none of the last three).
 */
module ErrorHandler {
  import opened Wrappers

  datatype AppError = AppError(
    message: string,
    statusCode: Option<int>,
    errType: Option<string>,
    isOperational: Option<bool>)

  /** The two console channels an error can be logged on. */
  datatype Channel = ServerError | ClientWarning

  /** The fields of a log entry that do not depend on the clock or the request. */
  datatype LogEntry = LogEntry(statusCode: int, errType: string, channel: Channel)

  /** The fields of an error response that do not depend on the clock or the environment. */
  datatype ErrorResponse = ErrorResponse(error: string, errType: string)

  /** An error as `new Error(message)` makes it: no status, no type. */
  function PlainError(message: string): AppError {
    AppError(message, None, None, None)
  }

  /** `createError(message, statusCode = 500, type = 'GENERIC_ERROR')`;
      an omitted argument is `None`. */
  function CreateError(message: string, statusCode: Option<int>, errType: Option<string>): (e: AppError)
    ensures e.message == message && e.statusCode.Some? && e.errType.Some? && e.isOperational.None?
    ensures statusCode.None? ==> e.statusCode == Some(500)
    ensures statusCode.Some? ==> e.statusCode == statusCode
    ensures errType.None? ==> e.errType == Some("GENERIC_ERROR")
    ensures errType.Some? ==> e.errType == errType
  {
    AppError(
      message,
      Some(match statusCode case Some(c) => c case None => 500),
      Some(match errType case Some(t) => t case None => "GENERIC_ERROR"),
      None)
  }

  /** `isOperationalError`: the flag is exactly `true`, or the status is below
      500; a missing status compares false. */
  predicate IsOperationalError(e: AppError) {
    e.isOperational == Some(true) || (e.statusCode.Some? && e.statusCode.value < 500)
  }

  /** An error reported to the client as a 400 with type `VALIDATION_ERROR`. */
  predicate IsValidationError(e: AppError) {
    e.statusCode == Some(400) && e.errType == Some("VALIDATION_ERROR")
  }

  /** `handleValidationError(field, value, constraint)`; `value` is the text the
      offending value interpolates to. */
  function HandleValidationError(field: string, value: string, constraint: string): (e: AppError)
    ensures e.message == "Invalid " + field + ": " + value + ". " + constraint
    ensures IsValidationError(e) && IsOperationalError(e)
  {
    CreateError("Invalid " + field + ": " + value + ". " + constraint, Some(400), Some("VALIDATION_ERROR"))
  }

  /** `handleFileError(message)`. */
  function HandleFileError(message: string): (e: AppError)
    ensures e.message == message
    ensures e.statusCode == Some(400) && e.errType == Some("FILE_ERROR")
    ensures IsOperationalError(e)
  {
    CreateError(message, Some(400), Some("FILE_ERROR"))
  }

  /** `handlePDFGenerationError(message)`. */
  function HandlePdfGenerationError(message: string): (e: AppError)
    ensures e.message == "PDF Generation Error: " + message
    ensures e.statusCode == Some(500) && e.errType == Some("PDF_GENERATION_ERROR")
    ensures !IsOperationalError(e)
  {
    CreateError("PDF Generation Error: " + message, Some(500), Some("PDF_GENERATION_ERROR"))
  }

  /** `handleContentError(message)`. */
  function HandleContentError(message: string): (e: AppError)
    ensures e.message == "Content Processing Error: " + message
    ensures e.statusCode == Some(400) && e.errType == Some("CONTENT_ERROR")
    ensures IsOperationalError(e)
  {
    CreateError("Content Processing Error: " + message, Some(400), Some("CONTENT_ERROR"))
  }

  /** The `error` and `type` fields of `formatErrorResponse`. */
  function FormatErrorResponse(e: AppError): (r: ErrorResponse)
    ensures r.error == e.message
    ensures r.errType != ""
    ensures e.errType.Some? && e.errType.value != "" ==> r.errType == e.errType.value
    ensures !(e.errType.Some? && e.errType.value != "") ==> r.errType == "UNKNOWN_ERROR"
  {
    ErrorResponse(e.message, if e.errType.Some? && e.errType.value != "" then e.errType.value else "UNKNOWN_ERROR")
  }

  /** The status, type and channel `logError` records: the status falls back
      to 500 when missing or 0, but the error channel is chosen only when the
      error's own status is at least 500. */
  function LogRecord(e: AppError): (r: LogEntry)
    ensures r.statusCode != 0 && r.errType != ""
    ensures r.channel == ServerError <==> e.statusCode.Some? && e.statusCode.value >= 500
    ensures r.channel == ServerError ==> r.statusCode >= 500
    ensures e.statusCode.Some? && e.statusCode.value != 0 ==> r.statusCode == e.statusCode.value
    ensures e.statusCode.None? || e.statusCode == Some(0) ==> r.statusCode == 500
    ensures r.errType == FormatErrorResponse(e).errType
  {
    LogEntry(
      if e.statusCode.Some? && e.statusCode.value != 0 then e.statusCode.value else 500,
      FormatErrorResponse(e).errType,
      if e.statusCode.Some? && e.statusCode.value >= 500 then ServerError else ClientWarning)
  }

  /** An error without a status code, such as the plain errors the converter
      throws, is logged with status 500 yet on the warning channel, and is not
      operational. */
  lemma MissingStatusLoggedAsWarning(message: string)
    ensures LogRecord(PlainError(message)) == LogEntry(500, "UNKNOWN_ERROR", ClientWarning)
    ensures !IsOperationalError(PlainError(message))
  {
  }

  /** For an error with a status code and no explicit flag, being operational
      and being logged on the warning channel coincide. */
  lemma OperationalIffWarning(e: AppError)
    requires e.statusCode.Some? && e.isOperational != Some(true)
    ensures IsOperationalError(e) <==> LogRecord(e).channel == ClientWarning
  {
  }
}
