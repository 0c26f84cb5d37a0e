/**
 * Values shared by both controllers: the outcome of a call into an external
 * collaborator, the response a handler produces, and the three headers that
 * every handler sets before doing anything else.
 */
module Http {

  /** The result of an awaited call into the database or the blob store:
      it resolves, or it throws with a message. */
  datatype Outcome = Ok | Fail(message: string)

  datatype Option<+T> = None | Some(value: T)

  datatype Result<+T, +E> = Success(value: T) | Failure(error: E)

  /** A JSON body as the controllers write it. */
  datatype Body =
    | NoBody                                  // `res.end()`
    | ErrorBody(error: string)                // `{ error: "..." }`
    | FileJson(file_name: string, id: string, url: string, upload_date: string)

  type Header = (string, string)

  datatype Response = Response(status: int, headers: seq<Header>, body: Body)

  const OK := 200
  const CREATED := 201
  const NO_CONTENT := 204
  const BAD_REQUEST := 400
  const NOT_FOUND := 404
  const METHOD_NOT_ALLOWED := 405
  const SERVICE_UNAVAILABLE := 503

  /** The headers that `setCommonHeaders` puts on every response. */
  const CommonHeaders: seq<Header> := [
    ("Cache-Control", "no-cache, no-store, must-revalidate"),
    ("Pragma", "no-cache"),
    ("X-Content-Type-Options", "nosniff")
  ]

  /** A response to which `setCommonHeaders` has been applied. */
  function Respond(status: int, body: Body): Response
  {
    Response(status, CommonHeaders, body)
  }
}
