/** The version endpoints under a service (internal/handler/version_handler.go). The decoded
    JSON body is an Option (None when decoding fails) and the version-service call a
    function parameter. */
module VersionHandlers {
  import opened Primitive
  import opened Errors
  import opened Domain
  import opened ServiceRules
  import opened Responses

  const MsgServiceIDRequired: string := "service id is required"
  const MsgVersionIDRequired: string := "version id is required"
  const MsgResourceNotFound: string := "resource not found"
  const MsgDuplicateVersion: string := "version already exists for this service"
  const MsgInvalidIDFormat: string := "invalid id format"

  datatype VersionPayload =
    | VersionBody(version: VersionResponse)
    | VersionListBody(data: seq<VersionResponse>)

  /** handleError: ErrNotFound (404), then ErrDuplicateVersion (409), then the service
      package's validation errors (400 with their text), then ErrInvalidID, then 500. */
  function HandleError(e: Error): (r: Reply<VersionPayload>)
    ensures r.Failure?
    ensures e == NotFound ==> r == Failure(StatusNotFound, MsgResourceNotFound)
    ensures e == DuplicateVersion ==> r == Failure(StatusConflict, MsgDuplicateVersion)
    ensures IsValidationError(e) ==> r == BadRequest(Message(e))
    ensures e != NotFound && e != DuplicateVersion && !IsValidationError(e) ==> r == InternalServerError()
  {
    if e == NotFound then Failure(StatusNotFound, MsgResourceNotFound)
    else if e == DuplicateVersion then Failure(StatusConflict, MsgDuplicateVersion)
    else if IsValidationError(e) then BadRequest(Message(e))
    else if e == InvalidID then BadRequest(MsgInvalidIDFormat)
    else InternalServerError()
  }

  /** ErrInvalidID is caught as a validation error, so "invalid id format" is never written. */
  lemma InvalidIDSwallowed(e: Error)
    ensures HandleError(InvalidID) == BadRequest("invalid ID format")
    ensures HandleError(e).message != MsgInvalidIDFormat
  {
    match e {
      case NameRequired => assert |Message(e)| != |MsgInvalidIDFormat|;
      case DescriptionRequired => assert |Message(e)| != |MsgInvalidIDFormat|;
      case NameTooLong => assert |Message(e)| != |MsgInvalidIDFormat|;
      case DescriptionTooLong => assert |Message(e)| != |MsgInvalidIDFormat|;
      case InvalidSortField => assert |Message(e)| != |MsgInvalidIDFormat|;
      case InvalidID => assert Message(e)[8] != MsgInvalidIDFormat[8];
      case _ =>
    }
  }

  /** ErrVersionRequired is not a validation error of the service package, so a create
      without a version string is answered 500, not 400. */
  lemma VersionRequiredIsInternal(serviceID: string, req: CreateVersionRequest,
                                  create: (string, CreateVersionRequest) -> Result<VersionRow>)
    requires serviceID != "" && create(serviceID, req) == Err(VersionRequired)
    ensures HandleError(VersionRequired) == Failure(StatusInternalServerError, MsgInternal)
    ensures Create(serviceID, Some(req), create) == Failure(StatusInternalServerError, MsgInternal)
  {
  }

  /** Create: the service id, then the body; 201 with the new version. */
  function Create(serviceID: string, body: Option<CreateVersionRequest>,
                  create: (string, CreateVersionRequest) -> Result<VersionRow>): (r: Reply<VersionPayload>)
    ensures serviceID == "" ==> r == BadRequest(MsgServiceIDRequired)
    ensures serviceID != "" && body.None? ==> r == BadRequest(MsgInvalidBody)
    ensures r.Success? <==> serviceID != "" && body.Some? && create(serviceID, body.value).Ok?
    ensures r.Success? ==> r == Success(StatusCreated, VersionBody(VersionToResponse(create(serviceID, body.value).value)))
    ensures serviceID != "" && body.Some? && create(serviceID, body.value).Err? ==>
      r == HandleError(create(serviceID, body.value).error)
  {
    if serviceID == "" then BadRequest(MsgServiceIDRequired)
    else match body
      case None => BadRequest(MsgInvalidBody)
      case Some(req) =>
        match create(serviceID, req)
        case Err(e) => HandleError(e)
        case Ok(v) => Success(StatusCreated, VersionBody(VersionToResponse(v)))
  }

  /** Get: the service id, then the version id, then the lookup; 200 with the version. */
  function Get(serviceID: string, versionID: string, get: (string, string) -> Result<VersionRow>)
    : (r: Reply<VersionPayload>)
    ensures serviceID == "" ==> r == BadRequest(MsgServiceIDRequired)
    ensures serviceID != "" && versionID == "" ==> r == BadRequest(MsgVersionIDRequired)
    ensures r.Success? <==> serviceID != "" && versionID != "" && get(serviceID, versionID).Ok?
    ensures r.Success? ==> r == Success(StatusOK, VersionBody(VersionToResponse(get(serviceID, versionID).value)))
    ensures serviceID != "" && versionID != "" && get(serviceID, versionID).Err? ==>
      r == HandleError(get(serviceID, versionID).error)
  {
    if serviceID == "" then BadRequest(MsgServiceIDRequired)
    else if versionID == "" then BadRequest(MsgVersionIDRequired)
    else match get(serviceID, versionID)
      case Err(e) => HandleError(e)
      case Ok(v) => Success(StatusOK, VersionBody(VersionToResponse(v)))
  }

  /** Delete: the service id, then the version id; 204 on success. */
  function Delete(serviceID: string, versionID: string, delete: (string, string) -> Option<Error>)
    : (r: Reply<VersionPayload>)
    ensures serviceID == "" ==> r == BadRequest(MsgServiceIDRequired)
    ensures serviceID != "" && versionID == "" ==> r == BadRequest(MsgVersionIDRequired)
    ensures r == NoContent <==> serviceID != "" && versionID != "" && delete(serviceID, versionID).None?
    ensures serviceID != "" && versionID != "" && delete(serviceID, versionID).Some? ==>
      r == HandleError(delete(serviceID, versionID).value)
  {
    if serviceID == "" then BadRequest(MsgServiceIDRequired)
    else if versionID == "" then BadRequest(MsgVersionIDRequired)
    else match delete(serviceID, versionID)
      case Some(e) => HandleError(e)
      case None => NoContent
  }

  /** List: the service id, then each version of the service converted, in the order the
      service returned them. */
  method List(serviceID: string, list: string -> Result<seq<VersionRow>>) returns (r: Reply<VersionPayload>)
    ensures serviceID == "" ==> r == BadRequest(MsgServiceIDRequired)
    ensures serviceID != "" && list(serviceID).Err? ==> r == HandleError(list(serviceID).error)
    ensures r.Success? <==> serviceID != "" && list(serviceID).Ok?
    ensures r.Success? ==>
      var versions := list(serviceID).value;
      r.status == StatusOK && r.data.VersionListBody? && |r.data.data| == |versions| &&
      forall i :: 0 <= i < |versions| ==> r.data.data[i] == VersionToResponse(versions[i])
  {
    if serviceID == "" {
      return BadRequest(MsgServiceIDRequired);
    }
    var result := list(serviceID);
    match result {
      case Err(e) => return HandleError(e);
      case Ok(versions) =>
        var responses := ResponsesOf(versions, VersionToResponse);
        return Success(StatusOK, VersionListBody(responses));
    }
  }
}
