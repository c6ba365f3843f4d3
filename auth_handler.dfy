/** The registration, login and refresh endpoints (internal/handler/auth_handler.go). The
    decoded JSON body is an Option (None when decoding fails) and the auth-service call a
    function parameter. */
module AuthHandlers {
  import opened Primitive
  import opened Errors
  import opened Users
  import opened Responses

  const MsgInvalidCredentials: string := "invalid credentials"
  const MsgRefreshTokenRequired: string := "refresh_token is required"

  /** The field errors of registration and login, answered with their own text. */
  predicate IsCredentialFieldError(e: Error) {
    e in {EmailRequired, EmailInvalid, EmailTooLong, PasswordRequired, PasswordTooShort, PasswordTooLong,
          FirstNameRequired, FirstNameTooLong, LastNameTooLong}
  }

  /** handleError: a field error is 400 with its text, a taken email 409 with its text, bad
      credentials 401 with a fixed text, and anything else 500. */
  function HandleError(e: Error): (r: Reply<AuthResponse>)
    ensures r.Failure?
    ensures r.status == StatusBadRequest <==> IsCredentialFieldError(e)
    ensures r.status == StatusConflict <==> e == EmailAlreadyExists
    ensures r.status == StatusUnauthorized <==> e == InvalidCredentials
    ensures r.status == StatusInternalServerError <==>
      !(IsCredentialFieldError(e) || e == EmailAlreadyExists || e == InvalidCredentials)
    ensures r.status != StatusUnauthorized && r.status != StatusInternalServerError ==> r.message == Message(e)
    ensures r.status == StatusUnauthorized ==> r.message == MsgInvalidCredentials
  {
    if IsCredentialFieldError(e) then BadRequest(Message(e))
    else if e == EmailAlreadyExists then Failure(StatusConflict, Message(e))
    else if e == InvalidCredentials then Failure(StatusUnauthorized, MsgInvalidCredentials)
    else InternalServerError()
  }

  /** Register: 201 with the tokens. */
  function Register(body: Option<RegisterRequest>, register: RegisterRequest -> Result<AuthResponse>)
    : (r: Reply<AuthResponse>)
    ensures body.None? ==> r == BadRequest(MsgInvalidBody)
    ensures r.Success? <==> body.Some? && register(body.value).Ok?
    ensures r.Success? ==> r == Success(StatusCreated, register(body.value).value)
    ensures body.Some? && register(body.value).Err? ==> r == HandleError(register(body.value).error)
  {
    match body
    case None => BadRequest(MsgInvalidBody)
    case Some(req) =>
      match register(req)
      case Err(e) => HandleError(e)
      case Ok(resp) => Success(StatusCreated, resp)
  }

  /** Login: 200 with the tokens. */
  function Login(body: Option<LoginRequest>, login: LoginRequest -> Result<AuthResponse>): (r: Reply<AuthResponse>)
    ensures body.None? ==> r == BadRequest(MsgInvalidBody)
    ensures r.Success? <==> body.Some? && login(body.value).Ok?
    ensures r.Success? ==> r == Success(StatusOK, login(body.value).value)
    ensures body.Some? && login(body.value).Err? ==> r == HandleError(login(body.value).error)
  {
    match body
    case None => BadRequest(MsgInvalidBody)
    case Some(req) =>
      match login(req)
      case Err(e) => HandleError(e)
      case Ok(resp) => Success(StatusOK, resp)
  }

  /** Refresh: an empty refresh token is refused before the service is asked; 200 with the
      new tokens. */
  function Refresh(body: Option<RefreshTokenRequest>, refresh: string -> Result<AuthResponse>)
    : (r: Reply<AuthResponse>)
    ensures body.None? ==> r == BadRequest(MsgInvalidBody)
    ensures body.Some? && body.value.refreshToken == "" ==> r == BadRequest(MsgRefreshTokenRequired)
    ensures r.Success? <==> body.Some? && body.value.refreshToken != "" && refresh(body.value.refreshToken).Ok?
    ensures r.Success? ==> r == Success(StatusOK, refresh(body.value.refreshToken).value)
    ensures body.Some? && body.value.refreshToken != "" && refresh(body.value.refreshToken).Err? ==>
      r == HandleError(refresh(body.value.refreshToken).error)
  {
    match body
    case None => BadRequest(MsgInvalidBody)
    case Some(req) =>
      if req.refreshToken == "" then BadRequest(MsgRefreshTokenRequired)
      else
        match refresh(req.refreshToken)
        case Err(e) => HandleError(e)
        case Ok(resp) => Success(StatusOK, resp)
  }

  /** The service reports an unknown email, an inactive user and a wrong password all as
      ErrInvalidCredentials, so the three are one and the same 401 on the wire; so are the
      failures of a refresh. */
  lemma CredentialFailuresIndistinguishable(req: LoginRequest, login1: LoginRequest -> Result<AuthResponse>,
                                            login2: LoginRequest -> Result<AuthResponse>, token: string,
                                            refresh: string -> Result<AuthResponse>)
    requires login1(req) == Err(InvalidCredentials) && login2(req) == Err(InvalidCredentials)
    requires token != "" && refresh(token) == Err(InvalidCredentials)
    ensures Login(Some(req), login1) == Login(Some(req), login2) == Failure(StatusUnauthorized, MsgInvalidCredentials)
    ensures Refresh(Some(RefreshTokenRequest(token)), refresh) == Failure(StatusUnauthorized, MsgInvalidCredentials)
  {
  }

  /** A bcrypt failure during registration is neither a field error nor a conflict: 500. */
  lemma HashFailureIsInternal()
    ensures HandleError(HashFailure) == Failure(StatusInternalServerError, MsgInternal)
  {
  }
}
