/** The HTTP status codes the handlers write (Go's net/http constants) and
    the two shapes of response they produce. */
module Http {
  const StatusOK: int := 200
  const StatusCreated: int := 201
  const StatusBadRequest: int := 400
  const StatusUnauthorized: int := 401
  const StatusNotFound: int := 404
  const StatusInternalServerError: int := 500

  /** What a handler writes: HttpError's `{"message": ...}` with a status,
      or HttpJson's encoding of a body with a status. */
  datatype Response<+B> = Error(status: int, message: string) | Json(status: int, body: B)
}
