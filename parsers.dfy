/** backend/helpers/parsers.go: reading the user id of an assign request
    out of its body without consuming the body, and reading the `{id}` path
    parameter. JSON decoding is abstract: `decodeUserId` gives the `userId`
    field of an `EventAssignRequest` (0 when the field is absent) or None when
    the body is not such a JSON object. */
module Parsers {
  import opened Common
  import opened Decimal

  /** The request body as a stream of bytes not yet read. */
  class Request {
    var body: Bytes

    constructor (body: Bytes)
      ensures this.body == body
    {
      this.body := body;
    }
  }

  datatype ParseError = ReadFailed | DecodeFailed | MissingUserId | InvalidId

  /** What ParseTheUserIdFromRequest returns for a body: a read or decode
      error, "missing user id" for 0, or the id. */
  function UserIdOf(body: Bytes, readFails: bool, decodeUserId: Bytes -> Option<int>): (r: Result<int, ParseError>)
    ensures readFails ==> r == Err(ReadFailed)
    ensures !readFails && decodeUserId(body).None? ==> r == Err(DecodeFailed)
    ensures !readFails && decodeUserId(body) == Some(0) ==> r == Err(MissingUserId)
    ensures r.Ok? <==> !readFails && decodeUserId(body).Some? && decodeUserId(body).value != 0
    ensures r.Ok? ==> r.value == decodeUserId(body).value
  {
    if readFails then Err(ReadFailed)
    else match decodeUserId(body)
      case None => Err(DecodeFailed)
      case Some(id) => if id == 0 then Err(MissingUserId) else Ok(id)
  }

  /** ParseTheUserIdFromRequest: read the whole body, put an identical
      reader back in its place, and decode the copy. After a successful read
      the body is unchanged, so the handler can decode it again; after a
      failed read the stream's remainder is not modelled. */
  method ParseTheUserIdFromRequest(req: Request, readFails: bool, decodeUserId: Bytes -> Option<int>)
    returns (r: Result<int, ParseError>)
    modifies req
    ensures r == UserIdOf(old(req.body), readFails, decodeUserId)
    ensures !readFails ==> req.body == old(req.body)
  {
    if readFails {
      req.body := [];
      return Err(ReadFailed);
    }
    // `io.ReadAll` drains the stream ...
    var bodyBytes := req.body;
    req.body := [];
    // ... and a fresh reader over the same bytes replaces it.
    req.body := bodyBytes;
    var decoded := decodeUserId(bodyBytes);
    if decoded.None? {
      return Err(DecodeFailed);
    }
    if decoded.value == 0 {
      return Err(MissingUserId);
    }
    r := Ok(decoded.value);
  }

  /** Parsing twice, as the assign route's predicate and then its handler
      do, sees the same body and gives the same answer. */
  method ParseTwice(req: Request, decodeUserId: Bytes -> Option<int>) returns (first: Result<int, ParseError>, second: Result<int, ParseError>)
    modifies req
    ensures first == second == UserIdOf(old(req.body), false, decodeUserId)
    ensures req.body == old(req.body)
  {
    first := ParseTheUserIdFromRequest(req, false, decodeUserId);
    second := ParseTheUserIdFromRequest(req, false, decodeUserId);
  }

  /** ParseUserIdFromRoute: `strconv.ParseInt(idStr, 10, 64)`. */
  function ParseIdFromRoute(idText: string): (r: Result<int, ParseError>)
    ensures r.Ok? <==> ParseInt(idText).Some?
    ensures r.Ok? ==> r.value == ParseInt(idText).value && MinInt64 <= r.value <= MaxInt64
    ensures r.Err? ==> r.error == InvalidId
  {
    match ParseInt(idText)
    case Some(id) => Ok(id)
    case None => Err(InvalidId)
  }

  /** A path built from an id reads back as that id. */
  lemma RouteIdRoundTrip(id: int)
    requires MinInt64 <= id <= MaxInt64
    ensures ParseIdFromRoute(Format(id)) == Ok(id)
  {
    ParseFormat(id);
  }
}
