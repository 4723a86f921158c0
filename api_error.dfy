/** The error type every handler can return, the conversions into it from the
    database driver's and the web framework's errors, and the HTTP response
    it becomes (src/api_error.rs). */
module ApiErrors {

  /** An HTTP status as the error stores it (`u16`). */
  newtype U16 = x: int | 0 <= x < 0x1_0000

  /** The database driver's error kinds the conversion tells apart. Any error
      the database itself reports carries the database's own message; every
      other kind is known only through its display text. */
  datatype DieselError =
    | DatabaseError(message: string)
    | NotFound
    | OtherDieselError(display: string)

  /** A web-framework error, known only through its display text. */
  datatype ActixError = ActixError(display: string)

  datatype ApiError = ApiError(statusCode: U16, message: string)

  /** The response body's one field, and the status it is sent with. */
  datatype Response = Response(status: int, message: string)

  const InternalMessage: string := "Internal server error"
  const NotFoundMessage: string := "Record not found"

  /** `From<DieselError>`: any error the database reports is a conflict that
      passes the database's message on, a missing row is a 404, and anything
      else is an internal error whose message names the driver error. */
  function FromDiesel(error: DieselError): (r: ApiError)
    ensures error.DatabaseError? <==> r.statusCode == 409
    ensures error.DatabaseError? ==> r.message == error.message
    ensures error.NotFound? <==> r.statusCode == 404
    ensures error.NotFound? ==> r.message == NotFoundMessage
    ensures error.OtherDieselError? <==> r.statusCode == 500
    ensures error.OtherDieselError? ==> r.message == "Diesel error: " + error.display
  {
    match error
    case DatabaseError(message) => ApiError(409, message)
    case NotFound => ApiError(404, NotFoundMessage)
    case OtherDieselError(display) => ApiError(500, "Diesel error: " + display)
  }

  /** `From<ActixError>`: always an internal error carrying the framework's
      text. */
  function FromActix(error: ActixError): (r: ApiError)
    ensures r.statusCode == 500 && r.message == error.display
  {
    ApiError(500, error.display)
  }

  /** What `StatusCode::from_u16` accepts: three-digit codes. */
  predicate ValidStatus(code: int)
  {
    100 <= code <= 999
  }

  /** `error_response`: an invalid stored code is answered as 500, and the
      stored message reaches the client only below 500. */
  function ErrorResponse(e: ApiError): (r: Response)
    ensures ValidStatus(r.status)
    ensures ValidStatus(e.statusCode as int) ==> r.status == e.statusCode as int
    ensures !ValidStatus(e.statusCode as int) ==> r.status == 500
    ensures r.status < 500 ==> r.message == e.message
    ensures r.status >= 500 ==> r.message == InternalMessage
  {
    var status := if ValidStatus(e.statusCode as int) then e.statusCode as int else 500;
    Response(status, if status < 500 then e.message else InternalMessage)
  }

  /** `Display`: the stored message and nothing else. */
  function Display(e: ApiError): (r: string)
    ensures r == e.message
  {
    e.message
  }

  /** What a client sees for each database error: the database's message with
      409, the fixed not-found text with 404, and for every other kind only
      the generic text with 500, never the driver's own description. */
  lemma DieselResponses(error: DieselError)
    ensures error.DatabaseError? ==> ErrorResponse(FromDiesel(error)) == Response(409, error.message)
    ensures error.NotFound? ==> ErrorResponse(FromDiesel(error)) == Response(404, NotFoundMessage)
    ensures error.OtherDieselError? ==> ErrorResponse(FromDiesel(error)) == Response(500, InternalMessage)
  {
  }

  /** A framework error never shows its text to the client. */
  lemma ActixResponse(error: ActixError)
    ensures ErrorResponse(FromActix(error)) == Response(500, InternalMessage)
  {
  }

  /** The response exposes the stored message exactly when its status is below
      500, and the generic text otherwise; whenever the two texts differ, the
      message is exposed if and only if the stored code is a valid one below
      500. */
  lemma ExposedIffBelow500(e: ApiError)
    requires e.message != InternalMessage
    ensures ErrorResponse(e).message == e.message <==> ErrorResponse(e).status < 500
    ensures ErrorResponse(e).message == e.message <==> ValidStatus(e.statusCode as int) && e.statusCode < 500
  {
  }
}
