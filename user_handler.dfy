/** The account endpoints (internal/handler/user_handler.go). Each handler is a guard chain
    that writes one reply; the decoded JSON body is an Option (None when decoding fails) and
    the user-service call is a function parameter, so a handler that answers without calling
    the service is one whose reply does not depend on that parameter. */
module UserHandlers {
  import opened Primitive
  import opened Errors
  import opened Pagination
  import opened Users
  import opened Responses
  import Auth
  import Jwt

  const MsgAdminRequired: string := "admin access required"
  const MsgAccessDenied: string := "access denied"
  const MsgAuthRequired: string := "authentication required"
  const MsgUserIDRequired: string := "user id is required"
  const MsgUserNotFound: string := "user not found"
  const MsgInvalidUserID: string := "invalid user id format"
  const MsgInvalidCredentials: string := "invalid credentials"
  const MsgPasswordChanged: string := "password changed successfully"

  /** The bodies the account endpoints answer with. */
  datatype UserPayload =
    | UserBody(user: UserResponse)
    | UserListBody(data: seq<UserResponse>, pagination: PaginationMetadata)
    | MessageBody(message: string)

  // ---------------------------------------------------------------------------
  // Authorization
  // ---------------------------------------------------------------------------

  /** isAdmin: a role is in the context and it is "admin". */
  function IsAdmin(ctx: Auth.Context): (b: bool)
    ensures b <==> ctx.userRole == Some(RoleAdmin)
  {
    var (role, ok) := Auth.GetUserRole(ctx);
    if !ok then false else role == RoleAdmin
  }

  /** canAccessUser: an administrator may reach any user, anyone else only the user id in
      the context. */
  function CanAccessUser(ctx: Auth.Context, targetUserID: string): (b: bool)
    ensures b <==> IsAdmin(ctx) || ctx.userId == Some(targetUserID)
  {
    if IsAdmin(ctx) then true
    else
      var (current, ok) := Auth.GetUserID(ctx);
      if !ok then false else current == targetUserID
  }

  /** A request let in with an API key carries no role, so it is never an administrator and
      can reach no user's record. */
  lemma APIKeyNeverAdmin(mw: Auth.Middleware, codec: Jwt.Codec, req: Auth.Request, now: int, target: string)
    requires req.ctx == Auth.EmptyContext
    requires Auth.Authenticate(mw, codec, req, now).Proceed?
    requires Auth.IsAPIKeyAuth(Auth.Authenticate(mw, codec, req, now).ctx)
    ensures !IsAdmin(Auth.Authenticate(mw, codec, req, now).ctx)
    ensures !CanAccessUser(Auth.Authenticate(mw, codec, req, now).ctx, target)
  {
    if req.path != Auth.HealthPath {
      Auth.ExactlyOneMeans(mw, codec, req, now);
    }
  }

  // ---------------------------------------------------------------------------
  // Errors
  // ---------------------------------------------------------------------------

  /** The field errors of the account requests, answered with their own text. */
  predicate IsAccountFieldError(e: Error) {
    e in {EmailRequired, EmailInvalid, EmailTooLong, PasswordRequired, PasswordTooShort, PasswordTooLong,
          FirstNameRequired, FirstNameTooLong, LastNameTooLong, InvalidRole}
  }

  /** handleError: a missing user is 404, a bad id 400, a taken email 409 with its text, bad
      credentials 401, a field error 400 with its text, and anything else 500. */
  function HandleError(e: Error): (r: Reply<UserPayload>)
    ensures r.Failure?
    ensures r.status == StatusBadRequest <==> e == InvalidID || IsAccountFieldError(e)
    ensures r.status == StatusNotFound <==> e == UserNotFound
    ensures r.status == StatusConflict <==> e == EmailAlreadyExists
    ensures r.status == StatusUnauthorized <==> e == InvalidCredentials
    ensures r.status == StatusInternalServerError <==>
      !(e in {UserNotFound, InvalidID, EmailAlreadyExists, InvalidCredentials} || IsAccountFieldError(e))
    ensures IsAccountFieldError(e) || e == EmailAlreadyExists ==> r.message == Message(e)
  {
    if e == UserNotFound then Failure(StatusNotFound, MsgUserNotFound)
    else if e == InvalidID then BadRequest(MsgInvalidUserID)
    else if e == EmailAlreadyExists then Failure(StatusConflict, Message(e))
    else if e == InvalidCredentials then Failure(StatusUnauthorized, MsgInvalidCredentials)
    else if IsAccountFieldError(e) then BadRequest(Message(e))
    else InternalServerError()
  }

  /** The statuses the account endpoints answer errors with. */
  lemma HandleErrorStatuses(e: Error)
    ensures HandleError(e).status in {StatusBadRequest, StatusUnauthorized, StatusNotFound, StatusConflict,
                                      StatusInternalServerError}
  {
  }

  // ---------------------------------------------------------------------------
  // The handlers
  // ---------------------------------------------------------------------------

  /** Create: administrators only, checked before the body is read; 201 with the new user. */
  function Create(ctx: Auth.Context, body: Option<CreateUserRequest>, create: CreateUserRequest -> Result<UserRow>)
    : (r: Reply<UserPayload>)
    ensures !IsAdmin(ctx) ==> r == Failure(StatusForbidden, MsgAdminRequired)
    ensures IsAdmin(ctx) && body.None? ==> r == BadRequest(MsgInvalidBody)
    ensures r.Success? <==> IsAdmin(ctx) && body.Some? && create(body.value).Ok?
    ensures r.Success? ==> r == Success(StatusCreated, UserBody(UserToResponse(create(body.value).value)))
    ensures IsAdmin(ctx) && body.Some? && create(body.value).Err? ==> r == HandleError(create(body.value).error)
  {
    if !IsAdmin(ctx) then Failure(StatusForbidden, MsgAdminRequired)
    else match body
      case None => BadRequest(MsgInvalidBody)
      case Some(req) =>
        match create(req)
        case Err(e) => HandleError(e)
        case Ok(user) => Success(StatusCreated, UserBody(UserToResponse(user)))
  }

  /** Get: an empty id is refused first, then a caller who may not see the user; only then
      is the user looked up. */
  function Get(ctx: Auth.Context, id: string, get: string -> Result<UserRow>): (r: Reply<UserPayload>)
    ensures id == "" ==> r == BadRequest(MsgUserIDRequired)
    ensures id != "" && !CanAccessUser(ctx, id) ==> r == Failure(StatusForbidden, MsgAccessDenied)
    ensures r.Success? <==> id != "" && CanAccessUser(ctx, id) && get(id).Ok?
    ensures r.Success? ==> r == Success(StatusOK, UserBody(UserToResponse(get(id).value)))
    ensures r.Failure? && id != "" && CanAccessUser(ctx, id) ==> r == HandleError(get(id).error)
  {
    if id == "" then BadRequest(MsgUserIDRequired)
    else if !CanAccessUser(ctx, id) then Failure(StatusForbidden, MsgAccessDenied)
    else match get(id)
      case Err(e) => HandleError(e)
      case Ok(user) => Success(StatusOK, UserBody(UserToResponse(user)))
  }

  /** Update: administrators only, then a non-empty id, then a decodable body. */
  function Update(ctx: Auth.Context, id: string, body: Option<UpdateUserRequest>,
                  update: (string, UpdateUserRequest) -> Result<UserRow>): (r: Reply<UserPayload>)
    ensures !IsAdmin(ctx) ==> r == Failure(StatusForbidden, MsgAdminRequired)
    ensures IsAdmin(ctx) && id == "" ==> r == BadRequest(MsgUserIDRequired)
    ensures IsAdmin(ctx) && id != "" && body.None? ==> r == BadRequest(MsgInvalidBody)
    ensures r.Success? <==> IsAdmin(ctx) && id != "" && body.Some? && update(id, body.value).Ok?
    ensures r.Success? ==> r == Success(StatusOK, UserBody(UserToResponse(update(id, body.value).value)))
    ensures IsAdmin(ctx) && id != "" && body.Some? && update(id, body.value).Err? ==>
      r == HandleError(update(id, body.value).error)
  {
    if !IsAdmin(ctx) then Failure(StatusForbidden, MsgAdminRequired)
    else if id == "" then BadRequest(MsgUserIDRequired)
    else match body
      case None => BadRequest(MsgInvalidBody)
      case Some(req) =>
        match update(id, req)
        case Err(e) => HandleError(e)
        case Ok(user) => Success(StatusOK, UserBody(UserToResponse(user)))
  }

  /** Delete: administrators only, then a non-empty id; 204 on success. */
  function Delete(ctx: Auth.Context, id: string, delete: string -> Option<Error>): (r: Reply<UserPayload>)
    ensures !IsAdmin(ctx) ==> r == Failure(StatusForbidden, MsgAdminRequired)
    ensures IsAdmin(ctx) && id == "" ==> r == BadRequest(MsgUserIDRequired)
    ensures r == NoContent <==> IsAdmin(ctx) && id != "" && delete(id).None?
    ensures IsAdmin(ctx) && id != "" && delete(id).Some? ==> r == HandleError(delete(id).value)
  {
    if !IsAdmin(ctx) then Failure(StatusForbidden, MsgAdminRequired)
    else if id == "" then BadRequest(MsgUserIDRequired)
    else match delete(id)
      case Some(e) => HandleError(e)
      case None => NoContent
  }

  /** GetMe: the user id the middleware attached, or 401. */
  function GetMe(ctx: Auth.Context, get: string -> Result<UserRow>): (r: Reply<UserPayload>)
    ensures ctx.userId.None? ==> r == Failure(StatusUnauthorized, MsgAuthRequired)
    ensures r.Success? <==> ctx.userId.Some? && get(ctx.userId.value).Ok?
    ensures r.Success? ==> r == Success(StatusOK, UserBody(UserToResponse(get(ctx.userId.value).value)))
    ensures ctx.userId.Some? && get(ctx.userId.value).Err? ==> r == HandleError(get(ctx.userId.value).error)
  {
    var (userID, ok) := Auth.GetUserID(ctx);
    if !ok then Failure(StatusUnauthorized, MsgAuthRequired)
    else match get(userID)
      case Err(e) => HandleError(e)
      case Ok(user) => Success(StatusOK, UserBody(UserToResponse(user)))
  }

  /** ChangePassword: the context's user id, or 401; then a decodable body; 200 with a fixed
      message on success. */
  function ChangePassword(ctx: Auth.Context, body: Option<ChangePasswordRequest>,
                          change: (string, ChangePasswordRequest) -> Option<Error>): (r: Reply<UserPayload>)
    ensures ctx.userId.None? ==> r == Failure(StatusUnauthorized, MsgAuthRequired)
    ensures ctx.userId.Some? && body.None? ==> r == BadRequest(MsgInvalidBody)
    ensures r.Success? <==> ctx.userId.Some? && body.Some? && change(ctx.userId.value, body.value).None?
    ensures r.Success? ==> r == Success(StatusOK, MessageBody(MsgPasswordChanged))
    ensures ctx.userId.Some? && body.Some? && change(ctx.userId.value, body.value).Some? ==>
      r == HandleError(change(ctx.userId.value, body.value).value)
  {
    var (userID, ok) := Auth.GetUserID(ctx);
    if !ok then Failure(StatusUnauthorized, MsgAuthRequired)
    else match body
      case None => BadRequest(MsgInvalidBody)
      case Some(req) =>
        match change(userID, req)
        case Some(e) => HandleError(e)
        case None => Success(StatusOK, MessageBody(MsgPasswordChanged))
  }

  /** List: administrators only; the page's records converted one by one, in order, with the
      pagination metadata. */
  method List(ctx: Auth.Context, params: PaginationParams, list: PaginationParams -> Result<PaginatedResult<UserRow>>)
    returns (r: Reply<UserPayload>)
    ensures !IsAdmin(ctx) ==> r == Failure(StatusForbidden, MsgAdminRequired)
    ensures IsAdmin(ctx) && list(params).Err? ==> r == HandleError(list(params).error)
    ensures r.Success? <==> IsAdmin(ctx) && list(params).Ok?
    ensures r.Success? ==>
      var page := list(params).value;
      r.status == StatusOK && r.data.UserListBody? && r.data.pagination == page.pagination &&
      |r.data.data| == |page.data| &&
      forall i :: 0 <= i < |page.data| ==> r.data.data[i] == UserToResponse(page.data[i])
  {
    if !IsAdmin(ctx) {
      return Failure(StatusForbidden, MsgAdminRequired);
    }
    var result := list(params);
    match result {
      case Err(e) => return HandleError(e);
      case Ok(page) =>
        var responses := ResponsesOf(page.data, UserToResponse);
        return Success(StatusOK, UserListBody(responses, page.pagination));
    }
  }

  // ---------------------------------------------------------------------------
  // Guard order
  // ---------------------------------------------------------------------------

  /** A caller who is not an administrator gets the same 403 from Create, Update and Delete
      whatever the body, the id and the service would have done. */
  lemma AdminCheckedFirst(ctx: Auth.Context, id: string, id2: string,
                          c1: Option<CreateUserRequest>, c2: Option<CreateUserRequest>,
                          create1: CreateUserRequest -> Result<UserRow>, create2: CreateUserRequest -> Result<UserRow>,
                          u1: Option<UpdateUserRequest>, u2: Option<UpdateUserRequest>,
                          update1: (string, UpdateUserRequest) -> Result<UserRow>,
                          update2: (string, UpdateUserRequest) -> Result<UserRow>,
                          delete1: string -> Option<Error>, delete2: string -> Option<Error>)
    requires !IsAdmin(ctx)
    ensures Create(ctx, c1, create1) == Create(ctx, c2, create2)
    ensures Update(ctx, id, u1, update1) == Update(ctx, id2, u2, update2)
    ensures Delete(ctx, id, delete1) == Delete(ctx, id2, delete2)
  {
  }

  /** Get refuses a caller who may not see the user without looking it up: the reply is the
      same whatever the lookup would return. */
  lemma GetDeniedWithoutLookup(ctx: Auth.Context, id: string, get1: string -> Result<UserRow>,
                               get2: string -> Result<UserRow>)
    requires !CanAccessUser(ctx, id)
    ensures Get(ctx, id, get1) == Get(ctx, id, get2)
  {
  }

  /** A user reading their own record sees the same reply from Get and from GetMe. */
  lemma OwnRecordTwoWays(ctx: Auth.Context, get: string -> Result<UserRow>)
    requires ctx.userId.Some? && ctx.userId.value != ""
    ensures Get(ctx, ctx.userId.value, get) == GetMe(ctx, get)
  {
  }
}
