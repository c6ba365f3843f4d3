/** The service-catalogue endpoints (internal/handler/service_handler.go). The decoded JSON
    body is an Option (None when decoding fails), the query a key-to-value map, and the
    service-layer call a function parameter. */
module ServiceHandlers {
  import opened Primitive
  import opened Errors
  import opened Pagination
  import opened Domain
  import opened Query
  import opened ServiceRules
  import opened Responses

  const MsgServiceIDRequired: string := "service id is required"
  const MsgServiceNotFound: string := "service not found"
  const MsgInvalidServiceID: string := "invalid service id format"

  datatype ServicePayload =
    | ServiceBody(service: ServiceResponse)
    | ServiceListBody(data: seq<ServiceResponse>, pagination: PaginationMetadata)

  /** handleError: ErrNotFound first (404), then the validation errors (400 with their text),
      then ErrInvalidID, then 500. */
  function HandleError(e: Error): (r: Reply<ServicePayload>)
    ensures r.Failure?
    ensures e == NotFound ==> r == Failure(StatusNotFound, MsgServiceNotFound)
    ensures IsValidationError(e) ==> r == BadRequest(Message(e))
    ensures e != NotFound && !IsValidationError(e) ==> r == InternalServerError()
  {
    if e == NotFound then Failure(StatusNotFound, MsgServiceNotFound)
    else if IsValidationError(e) then BadRequest(Message(e))
    else if e == InvalidID then BadRequest(MsgInvalidServiceID)
    else InternalServerError()
  }

  /** ErrInvalidID is already a validation error, so an invalid id is answered with its own
      text "invalid ID format" and the reply "invalid service id format" is never written. */
  lemma InvalidIDSwallowed(e: Error)
    ensures HandleError(InvalidID) == BadRequest("invalid ID format")
    ensures HandleError(e).message != MsgInvalidServiceID
  {
    match e {
      case NameRequired => assert |Message(e)| != |MsgInvalidServiceID|;
      case DescriptionRequired => assert |Message(e)| != |MsgInvalidServiceID|;
      case NameTooLong => assert |Message(e)| != |MsgInvalidServiceID|;
      case DescriptionTooLong => assert |Message(e)| != |MsgInvalidServiceID|;
      case InvalidSortField => assert |Message(e)| != |MsgInvalidServiceID|;
      case InvalidID => assert |Message(e)| != |MsgInvalidServiceID|;
      case _ =>
    }
  }

  /** Create: 201 with the new service. */
  function Create(body: Option<CreateServiceRequest>, create: CreateServiceRequest -> Result<ServiceRow>)
    : (r: Reply<ServicePayload>)
    ensures body.None? ==> r == BadRequest(MsgInvalidBody)
    ensures r.Success? <==> body.Some? && create(body.value).Ok?
    ensures r.Success? ==> r == Success(StatusCreated, ServiceBody(ServiceToResponse(create(body.value).value)))
    ensures body.Some? && create(body.value).Err? ==> r == HandleError(create(body.value).error)
  {
    match body
    case None => BadRequest(MsgInvalidBody)
    case Some(req) =>
      match create(req)
      case Err(e) => HandleError(e)
      case Ok(svc) => Success(StatusCreated, ServiceBody(ServiceToResponse(svc)))
  }

  /** Get: an empty id is refused before the lookup; 200 with the service. */
  function Get(id: string, get: string -> Result<ServiceRow>): (r: Reply<ServicePayload>)
    ensures id == "" ==> r == BadRequest(MsgServiceIDRequired)
    ensures r.Success? <==> id != "" && get(id).Ok?
    ensures r.Success? ==> r == Success(StatusOK, ServiceBody(ServiceToResponse(get(id).value)))
    ensures id != "" && get(id).Err? ==> r == HandleError(get(id).error)
  {
    if id == "" then BadRequest(MsgServiceIDRequired)
    else match get(id)
      case Err(e) => HandleError(e)
      case Ok(svc) => Success(StatusOK, ServiceBody(ServiceToResponse(svc)))
  }

  /** Update: the id, then the body; 200 with the saved service. */
  function Update(id: string, body: Option<UpdateServiceRequest>,
                  update: (string, UpdateServiceRequest) -> Result<ServiceRow>): (r: Reply<ServicePayload>)
    ensures id == "" ==> r == BadRequest(MsgServiceIDRequired)
    ensures id != "" && body.None? ==> r == BadRequest(MsgInvalidBody)
    ensures r.Success? <==> id != "" && body.Some? && update(id, body.value).Ok?
    ensures r.Success? ==> r == Success(StatusOK, ServiceBody(ServiceToResponse(update(id, body.value).value)))
    ensures id != "" && body.Some? && update(id, body.value).Err? ==> r == HandleError(update(id, body.value).error)
  {
    if id == "" then BadRequest(MsgServiceIDRequired)
    else match body
      case None => BadRequest(MsgInvalidBody)
      case Some(req) =>
        match update(id, req)
        case Err(e) => HandleError(e)
        case Ok(svc) => Success(StatusOK, ServiceBody(ServiceToResponse(svc)))
  }

  /** Patch: the id, then the body; 200 with the saved service. */
  function Patch(id: string, body: Option<PatchServiceRequest>,
                 patch: (string, PatchServiceRequest) -> Result<ServiceRow>): (r: Reply<ServicePayload>)
    ensures id == "" ==> r == BadRequest(MsgServiceIDRequired)
    ensures id != "" && body.None? ==> r == BadRequest(MsgInvalidBody)
    ensures r.Success? <==> id != "" && body.Some? && patch(id, body.value).Ok?
    ensures r.Success? ==> r == Success(StatusOK, ServiceBody(ServiceToResponse(patch(id, body.value).value)))
    ensures id != "" && body.Some? && patch(id, body.value).Err? ==> r == HandleError(patch(id, body.value).error)
  {
    if id == "" then BadRequest(MsgServiceIDRequired)
    else match body
      case None => BadRequest(MsgInvalidBody)
      case Some(req) =>
        match patch(id, req)
        case Err(e) => HandleError(e)
        case Ok(svc) => Success(StatusOK, ServiceBody(ServiceToResponse(svc)))
  }

  /** Delete: the id; 204 on success. */
  function Delete(id: string, delete: string -> Option<Error>): (r: Reply<ServicePayload>)
    ensures id == "" ==> r == BadRequest(MsgServiceIDRequired)
    ensures r == NoContent <==> id != "" && delete(id).None?
    ensures id != "" && delete(id).Some? ==> r == HandleError(delete(id).value)
  {
    if id == "" then BadRequest(MsgServiceIDRequired)
    else match delete(id)
      case Some(e) => HandleError(e)
      case None => NoContent
  }

  /** List: the list parameters parsed from the query, then each record of the page
      converted, in order, with the pagination metadata. */
  method List(q: QueryValues, list: ListParams -> Result<PaginatedResult<ServiceRow>>)
    returns (r: Reply<ServicePayload>)
    ensures list(ParseListParams(q)).Err? ==> r == HandleError(list(ParseListParams(q)).error)
    ensures r.Success? <==> list(ParseListParams(q)).Ok?
    ensures r.Success? ==>
      var page := list(ParseListParams(q)).value;
      r.status == StatusOK && r.data.ServiceListBody? && r.data.pagination == page.pagination &&
      |r.data.data| == |page.data| &&
      forall i :: 0 <= i < |page.data| ==> r.data.data[i] == ServiceToResponse(page.data[i])
  {
    var params := ParseListParams(q);
    var result := list(params);
    match result {
      case Err(e) => return HandleError(e);
      case Ok(page) =>
        var responses := ResponsesOf(page.data, ServiceToResponse);
        return Success(StatusOK, ServiceListBody(responses, page.pagination));
    }
  }

  /** An empty id is answered before the service is asked: the reply is the same whatever
      the service would have done. */
  lemma EmptyIDBeforeService(body1: Option<UpdateServiceRequest>, body2: Option<UpdateServiceRequest>,
                             update1: (string, UpdateServiceRequest) -> Result<ServiceRow>,
                             update2: (string, UpdateServiceRequest) -> Result<ServiceRow>,
                             patch1: Option<PatchServiceRequest>, patch2: Option<PatchServiceRequest>,
                             patchCall1: (string, PatchServiceRequest) -> Result<ServiceRow>,
                             patchCall2: (string, PatchServiceRequest) -> Result<ServiceRow>,
                             get1: string -> Result<ServiceRow>, get2: string -> Result<ServiceRow>,
                             delete1: string -> Option<Error>, delete2: string -> Option<Error>)
    ensures Get("", get1) == Get("", get2)
    ensures Update("", body1, update1) == Update("", body2, update2)
    ensures Patch("", patch1, patchCall1) == Patch("", patch2, patchCall2)
    ensures Delete("", delete1) == Delete("", delete2)
  {
  }
}
