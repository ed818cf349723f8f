/** HTTP error responses raised as `HTTPException`. */
module Http {

  const UNAUTHORIZED := 401
  const FORBIDDEN := 403
  const BAD_REQUEST := 400
  const NOT_FOUND := 404
  const CONFLICT := 409
  const UNPROCESSABLE := 422
  const INTERNAL_ERROR := 500

  /** An error response: status, `detail`, and whether it carries the
      `WWW-Authenticate: Bearer` challenge header (section 3 of RFC 6750). */
  datatype HttpError = HttpError(status: int, detail: string, bearerChallenge: bool)

  /** The response a server gives for an exception no handler catches. */
  const UNHANDLED := HttpError(INTERNAL_ERROR, "Internal Server Error", false)
}
