/**
 * The service's error type (src/error.rs): how each error becomes an HTTP
 * response, and how database errors are converted into it. Internal errors
 * (I/O and database) all answer 500 with one fixed message, so nothing about
 * them reaches the client.
 */
module Errors {
  import opened Common

  newtype byte = x: int | 0 <= x < 256

  /** An `io::Error`, known only by the text its `Display` produces. */
  datatype IoError = IoError(message: string)

  /** A `rusqlite::Error`: the one variant the service inspects, and every
      other one, known only by its `Display` text. */
  datatype SqliteError = QueryReturnedNoRows | OtherSqliteError(message: string)

  datatype Error =
    | Io(io: IoError)
    | NotFound
    | SessionNotFound(sessionId: seq<byte>)
    | Sqlite(sqlite: SqliteError)

  /** The JSON body of an error response, `{"detail": ...}`. */
  datatype ErrorDetail = ErrorDetail(detail: string)

  datatype Response = Response(status: StatusCode, body: ErrorDetail)

  const INTERNAL_DETAIL: string := "Internal server error"

  /** An internal error: its details stay on the server. */
  predicate IsInternal(e: Error)
  {
    e.Io? || e.Sqlite?
  }

  /** `rusqlite::Error`'s own `Display` text. */
  function SqliteMessage(e: SqliteError): string
  {
    match e
    case QueryReturnedNoRows => "Query returned no rows"
    case OtherSqliteError(message) => message
  }

  /** The `Display` text that `thiserror` derives from the `#[error]`
      attributes. `lossy` is `String::from_utf8_lossy`, a library decoding
      that the model takes as given. */
  function Display(e: Error, lossy: seq<byte> -> string): string
  {
    match e
    case Io(io) => io.message
    case NotFound => "Not found"
    case SessionNotFound(sessionId) => "Session `" + lossy(sessionId) + "` not found"
    case Sqlite(db) => SqliteMessage(db)
  }

  /** `IntoResponse::into_response`: 404 and 400 carry the error's own text;
      internal errors answer 500 with a fixed text. */
  function IntoResponse(e: Error, lossy: seq<byte> -> string): (r: Response)
    ensures r.status == NOT_FOUND || r.status == BAD_REQUEST || r.status == INTERNAL_SERVER_ERROR
    ensures r.status == NOT_FOUND <==> e.NotFound?
    ensures r.status == BAD_REQUEST <==> e.SessionNotFound?
    ensures r.status == INTERNAL_SERVER_ERROR <==> IsInternal(e)
    ensures IsInternal(e) ==> r.body.detail == INTERNAL_DETAIL
    ensures !IsInternal(e) ==> r.body.detail == Display(e, lossy)
  {
    match e
    case NotFound => Response(NOT_FOUND, ErrorDetail(Display(e, lossy)))
    case SessionNotFound(_) => Response(BAD_REQUEST, ErrorDetail(Display(e, lossy)))
    case Io(_) => Response(INTERNAL_SERVER_ERROR, ErrorDetail(INTERNAL_DETAIL))
    case Sqlite(_) => Response(INTERNAL_SERVER_ERROR, ErrorDetail(INTERNAL_DETAIL))
  }

  /** `From<rusqlite::Error>`: an empty query result is a missing resource;
      anything else is kept, unchanged, as a database error. */
  function FromSqlite(db: SqliteError): (e: Error)
    ensures e == NotFound <==> db == QueryReturnedNoRows
    ensures e != NotFound ==> e == Sqlite(db)
  {
    match db
    case QueryReturnedNoRows => NotFound
    case _ => Sqlite(db)
  }

  /** `#[from] io::Error`: an I/O error is wrapped as an internal error, so
      whatever its message, the client sees only the fixed 500 response. */
  function FromIo(io: IoError): (e: Error)
    ensures IsInternal(e)
    ensures forall lossy :: IntoResponse(e, lossy) == Response(INTERNAL_SERVER_ERROR, ErrorDetail(INTERNAL_DETAIL))
  {
    Io(io)
  }

  // ---------------------------------------------------------------------------
  // Properties
  // ---------------------------------------------------------------------------

  /** `NotFound` answers 404 "Not found"; `SessionNotFound` answers 400 naming
      the (lossily decoded) session id. */
  lemma ClientErrorResponses(sessionId: seq<byte>, lossy: seq<byte> -> string)
    ensures IntoResponse(NotFound, lossy) == Response(404, ErrorDetail("Not found"))
    ensures IntoResponse(SessionNotFound(sessionId), lossy).status == 400
    ensures IntoResponse(SessionNotFound(sessionId), lossy).body.detail ==
              "Session `" + lossy(sessionId) + "` not found"
  {
  }

  /** Internal errors leak nothing: every internal error, whatever its
      payload, gets the same response, which therefore does not depend on the
      error's message. */
  lemma InternalErrorsLeakNothing(e1: Error, e2: Error, lossy1: seq<byte> -> string, lossy2: seq<byte> -> string)
    requires IsInternal(e1) && IsInternal(e2)
    ensures IntoResponse(e1, lossy1) == IntoResponse(e2, lossy2)
    ensures IntoResponse(e1, lossy1) == Response(500, ErrorDetail("Internal server error"))
  {
  }

  /** A database error surfaces as 404 exactly when the query returned no
      rows, and as the fixed 500 response otherwise. */
  lemma SqliteErrorStatus(db: SqliteError, lossy: seq<byte> -> string)
    ensures IntoResponse(FromSqlite(db), lossy).status == if db.QueryReturnedNoRows? then 404 else 500
    ensures !db.QueryReturnedNoRows? ==>
              IntoResponse(FromSqlite(db), lossy).body.detail == INTERNAL_DETAIL
  {
  }

  /** An I/O error always surfaces as the fixed 500 response. */
  lemma IoErrorStatus(io: IoError, lossy: seq<byte> -> string)
    ensures IntoResponse(FromIo(io), lossy) == Response(500, ErrorDetail("Internal server error"))
  {
  }
}
