/** What a handler writes (pkg/response/response.go): an error with its status, a JSON body
    with its status, or 204 with no body. The JSON encoding itself is not modelled. */
module Responses {
  import opened Primitive

  const StatusOK: int := 200
  const StatusCreated: int := 201
  const StatusNoContent: int := 204
  const StatusBadRequest: int := 400
  const StatusUnauthorized: int := 401
  const StatusForbidden: int := 403
  const StatusNotFound: int := 404
  const StatusConflict: int := 409
  const StatusInternalServerError: int := 500

  const MsgInvalidBody: string := "invalid request body"
  const MsgInternal: string := "internal server error"

  /** `Failure` is an ErrorResponse {error, message}; `Success` a JSON body; `NoContent` a
      bare 204. */
  datatype Reply<+T> = Failure(status: int, message: string) | Success(status: int, data: T) | NoContent

  /** The "error" field the response helpers write for a status. The helpers behind 401 and
      403 (response.Unauthorized, response.Forbidden) are not part of this model, so only
      their status and message are. */
  function ErrorCode(status: int): (code: Option<string>)
    ensures code.Some? <==> status in {StatusBadRequest, StatusNotFound, StatusConflict, StatusInternalServerError}
  {
    if status == StatusBadRequest then Some("bad_request")
    else if status == StatusNotFound then Some("not_found")
    else if status == StatusConflict then Some("conflict")
    else if status == StatusInternalServerError then Some("internal_error")
    else None
  }

  function BadRequest<T>(message: string): Reply<T> {
    Failure(StatusBadRequest, message)
  }

  function InternalServerError<T>(): Reply<T> {
    Failure(StatusInternalServerError, MsgInternal)
  }

  /** The conversion loop of the List handlers: a slice made at the data's length, then
      filled index by index with each record's response. */
  method ResponsesOf<A, B(0)>(data: seq<A>, toResponse: A -> B) returns (out: seq<B>)
    ensures |out| == |data|
    ensures forall i :: 0 <= i < |data| ==> out[i] == toResponse(data[i])
  {
    var responses := new B[|data|];
    for i := 0 to |data|
      invariant forall j :: 0 <= j < i ==> responses[j] == toResponse(data[j])
    {
      responses[i] := toResponse(data[i]);
    }
    out := responses[..];
  }
}
