/** Registration, login and token refresh (internal/service/auth_service.go), run against the
    in-memory user table. The token library is the abstract `Codec`, bcrypt the abstract
    `Hasher`, the clock the `now` parameter (nanoseconds since the Unix epoch). */
module AuthRules {
  import opened Primitive
  import opened Errors
  import opened Strings
  import opened Users
  import opened Jwt
  import opened UserRepositoryMock
  import opened UserRules

  const BearerTokenType: string := "Bearer"

  /** The registration checks: the email's, the password's, then the names'. */
  function RegisterChecks(req: RegisterRequest): seq<Check> {
    EmailChecks(req.email) + PasswordChecks(req.password) + NameChecks(req.firstName, req.lastName)
  }

  /** validateRegisterRequest. */
  function ValidateRegisterRequest(req: RegisterRequest): Option<Error> {
    if req.email == "" then Some(EmailRequired)
    else if |req.email| > MaxEmailLength then Some(EmailTooLong)
    else if !IsEmail(req.email) then Some(EmailInvalid)
    else if req.password == "" then Some(PasswordRequired)
    else if |req.password| < MinPasswordLength then Some(PasswordTooShort)
    else if |req.password| > MaxPasswordLength then Some(PasswordTooLong)
    else if TrimSpace(req.firstName) == "" then Some(FirstNameRequired)
    else if |req.firstName| > MaxPersonNameLength then Some(FirstNameTooLong)
    else if |req.lastName| > MaxPersonNameLength then Some(LastNameTooLong)
    else None
  }

  /** validateRegisterRequest reports the first failing check of the ordered list. */
  lemma RegisterChecksInOrder(req: RegisterRequest)
    ensures ValidateRegisterRequest(req) == FirstFailure(RegisterChecks(req))
  {
    var e, p, n := EmailChecks(req.email), PasswordChecks(req.password), NameChecks(req.firstName, req.lastName);
    FirstFailureAppend(e, p);
    FirstFailureAppend(e + p, n);
    FirstFailureOfThree(e[0], e[1], e[2]);
    FirstFailureOfThree(p[0], p[1], p[2]);
    FirstFailureOfThree(n[0], n[1], n[2]);
  }

  /** Registering is validated exactly as an administrator's create with role "user". */
  lemma RegisterAsCreate(req: RegisterRequest)
    ensures ValidateRegisterRequest(req) ==
            ValidateCreateRequest(CreateUserRequest(req.email, req.password, req.firstName, req.lastName, RoleUser))
  {
    RegisterChecksInOrder(req);
    var c := CreateUserRequest(req.email, req.password, req.firstName, req.lastName, RoleUser);
    CreateChecksInOrder(c);
    var last := [Check(!IsValidRole(DefaultedRole(RoleUser)), InvalidRole)];
    FirstFailureAppend(RegisterChecks(req), last);
    assert CreateChecks(c) == RegisterChecks(req) + last;
    assert last[1..] == [];
  }

  class AuthService {
    const userRepo: MockUserRepository
    const jwtManager: Manager

    /** NewAuthService. */
    constructor (userRepo: MockUserRepository, jwtManager: Manager)
      ensures this.userRepo == userRepo && this.jwtManager == jwtManager
    {
      this.userRepo := userRepo;
      this.jwtManager := jwtManager;
    }

    /** generateAuthResponse: an access and a refresh token for the user's hex id, email and
        role, the type "Bearer", the access lifetime in seconds, and the user's public view. */
    function GenerateAuthResponse(codec: Codec, user: UserRow, now: int): (r: AuthResponse)
      ensures r.tokenType == BearerTokenType && r.expiresIn == GetAccessTokenExpiry(jwtManager)
      ensures r.user == UserToResponse(user)
    {
      var id := Hex(user.id);
      AuthResponse(GenerateAccessToken(codec, jwtManager, id, user.email, user.role, now),
                   GenerateRefreshToken(codec, jwtManager, id, user.email, user.role, now),
                   BearerTokenType, GetAccessTokenExpiry(jwtManager), UserToResponse(user))
    }

    /** The tokens of a response are the user's: until the access token's "exp", validating it
        gives the response's user id, email and role, and the refresh token (until its own
        "exp") passes ValidateRefreshToken with the same claims but not ValidateAccessToken. */
    lemma ResponseTokensIdentifyUser(codec: Codec, user: UserRow, issued: int, now: int)
      requires ValidCodec(codec)
      ensures var r := GenerateAuthResponse(codec, user, issued);
        issued <= now < NumericDate(issued + jwtManager.accessTokenExpiry) * NanosPerSecond ==>
          var a := ValidateAccessToken(codec, jwtManager, r.accessToken, now);
          a.Ok? && a.value.userId == r.user.id && a.value.email == r.user.email && a.value.role == r.user.role
      ensures var r := GenerateAuthResponse(codec, user, issued);
        issued <= now < NumericDate(issued + jwtManager.refreshTokenExpiry) * NanosPerSecond ==>
          var f := ValidateRefreshToken(codec, jwtManager, r.refreshToken, now);
          f.Ok? && f.value.userId == r.user.id && f.value.email == r.user.email && f.value.role == r.user.role &&
          ValidateAccessToken(codec, jwtManager, r.refreshToken, now) == Err(InvalidTokenType)
    {
      var id := Hex(user.id);
      if issued <= now < NumericDate(issued + jwtManager.accessTokenExpiry) * NanosPerSecond {
        AccessRoundTrip(codec, jwtManager, id, user.email, user.role, issued, now);
      }
      if issued <= now < NumericDate(issued + jwtManager.refreshTokenExpiry) * NanosPerSecond {
        ValidateGenerated(codec, jwtManager, id, user.email, user.role, TokenTypeRefresh,
                          jwtManager.refreshTokenExpiry, issued, now);
        RefreshIsNotAccess(codec, jwtManager, id, user.email, user.role, issued, now);
      }
    }

    /** Validates; refuses a lower-cased email already stored; stores an active "user" with
        the lower-cased email and the trimmed names; answers with fresh tokens. */
    method Register(req: RegisterRequest, codec: Codec, h: Hasher, salt: nat, freshId: ObjectID, now: int)
      returns (r: Result<AuthResponse>)
      requires userRepo.Valid() && !IsZero(freshId)
      modifies userRepo
      ensures userRepo.Valid()
      ensures r.Err? ==> userRepo.users == old(userRepo.users)
      ensures ValidateRegisterRequest(req).Some? ==> r == Err(ValidateRegisterRequest(req).value)
      ensures ValidateRegisterRequest(req).None? && old(userRepo.EmailTaken(ToLower(req.email))) ==>
        r == Err(EmailAlreadyExists)
      ensures ValidateRegisterRequest(req).None? && !old(userRepo.EmailTaken(ToLower(req.email))) &&
              h.generate(req.password, salt).None? ==>
        r == Err(HashFailure)
      ensures ValidateRegisterRequest(req).None? && !old(userRepo.EmailTaken(ToLower(req.email))) &&
              h.generate(req.password, salt).Some? ==>
        var id := Hex(freshId);
        var row := UserRow(freshId, ToLower(req.email), h.generate(req.password, salt).value,
                           TrimSpace(req.firstName), TrimSpace(req.lastName), RoleUser, true, At(now), At(now));
        id in userRepo.users && fresh(userRepo.users[id]) && userRepo.users[id].Row() == row &&
        userRepo.users == old(userRepo.users)[id := userRepo.users[id]] &&
        r == Ok(GenerateAuthResponse(codec, row, now))
      ensures ValidHasher(h) && r.Ok? ==>
        userRepo.users[Hex(freshId)].CheckPassword(h, req.password) &&
        AcceptsExactly(h, userRepo.users[Hex(freshId)].passwordHash, req.password)
    {
      var invalid := ValidateRegisterRequest(req);
      match invalid {
        case Some(e) => return Err(e);
        case None =>
      }
      var email := ToLower(req.email);
      var taken := userRepo.ExistsByEmail(email);
      if taken {
        return Err(EmailAlreadyExists);
      }
      var created := NewAccount(userRepo, email, TrimSpace(req.firstName), TrimSpace(req.lastName), RoleUser,
                                req.password, h, salt, freshId, now);
      match created {
        case Err(e) => return Err(e);
        case Ok(user) =>
          assert userRepo.users[Hex(freshId)] == user;
          return Ok(GenerateAuthResponse(codec, user.Row(), now));
      }
    }

    /** Both fields must be present; then every way of failing (no user with the lower-cased
        email, an inactive user, a wrong password) is the same ErrInvalidCredentials. */
    method Login(req: LoginRequest, codec: Codec, h: Hasher, now: int) returns (r: Result<AuthResponse>)
      ensures req.email == "" ==> r == Err(EmailRequired)
      ensures req.email != "" && req.password == "" ==> r == Err(PasswordRequired)
      ensures req.email != "" && req.password != "" && r.Err? ==> r == Err(InvalidCredentials)
      ensures req.email != "" && req.password != "" && !userRepo.EmailTaken(ToLower(req.email)) ==>
        r == Err(InvalidCredentials)
      ensures r.Ok? ==>
        exists k :: k in userRepo.users && LoggedIn(userRepo.users[k], req, h) &&
          r.value == GenerateAuthResponse(codec, userRepo.users[k].Row(), now)
      ensures req.email != "" && req.password != "" && userRepo.UniqueEmails() ==>
        forall k :: k in userRepo.users && userRepo.users[k].email == ToLower(req.email) ==>
          (r.Ok? <==> LoggedIn(userRepo.users[k], req, h))
    {
      if req.email == "" {
        return Err(EmailRequired);
      }
      if req.password == "" {
        return Err(PasswordRequired);
      }
      var found := userRepo.GetByEmail(ToLower(req.email));
      match found {
        case Err(e) =>
          if e == UserNotFound {
            return Err(InvalidCredentials);
          }
          return Err(e);
        case Ok(user) =>
          ghost var k0 :| k0 in userRepo.users && userRepo.users[k0] == user;
          if userRepo.UniqueEmails() {
            forall k | k in userRepo.users && userRepo.users[k].email == user.email
              ensures userRepo.users[k] == user
            {
              assert userRepo.Emails()[k] == userRepo.Emails()[k0];
            }
          }
          if !user.active {
            return Err(InvalidCredentials);
          }
          if !user.CheckPassword(h, req.password) {
            return Err(InvalidCredentials);
          }
          return Ok(GenerateAuthResponse(codec, user.Row(), now));
      }
    }

    /** The stored user a login succeeds as: it has the lower-cased email, is active, and the
        password matches its hash. */
    predicate LoggedIn(user: User, req: LoginRequest, h: Hasher)
      reads user
    {
      user.email == ToLower(req.email) && user.active && user.CheckPassword(h, req.password)
    }

    /** What RefreshToken answers for a table whose rows are `rows`: a token that is not a
        valid refresh token, a user id no longer stored, and an inactive user are all
        ErrInvalidCredentials; otherwise a new pair of tokens for the stored user. */
    function RefreshOutcome(codec: Codec, token: string, rows: map<string, UserRow>, now: int)
      : (r: Result<AuthResponse>)
      ensures r.Err? ==> r.error == InvalidCredentials
      ensures r.Ok? <==>
        ValidateRefreshToken(codec, jwtManager, token, now).Ok? &&
        ValidateRefreshToken(codec, jwtManager, token, now).value.userId in rows &&
        rows[ValidateRefreshToken(codec, jwtManager, token, now).value.userId].active
      ensures r.Ok? ==>
        r.value == GenerateAuthResponse(codec, rows[ValidateRefreshToken(codec, jwtManager, token, now).value.userId], now)
    {
      match ValidateRefreshToken(codec, jwtManager, token, now)
      case Err(_) => Err(InvalidCredentials)
      case Ok(claims) =>
        if claims.userId !in rows then Err(InvalidCredentials)
        else if !rows[claims.userId].active then Err(InvalidCredentials)
        else Ok(GenerateAuthResponse(codec, rows[claims.userId], now))
    }

    /** RefreshToken. */
    method RefreshToken(token: string, codec: Codec, now: int) returns (r: Result<AuthResponse>)
      ensures r == RefreshOutcome(codec, token, userRepo.Rows(), now)
    {
      var validated := ValidateRefreshToken(codec, jwtManager, token, now);
      match validated {
        case Err(_) => return Err(InvalidCredentials);
        case Ok(claims) =>
          var found := userRepo.GetByID(claims.userId);
          match found {
            case Err(_) => return Err(InvalidCredentials);
            case Ok(user) =>
              if !user.active {
                return Err(InvalidCredentials);
              }
              return Ok(GenerateAuthResponse(codec, user.Row(), now));
          }
      }
    }

    /** Round trip: the refresh token of a response issued to a user stored under its own hex
        id refreshes, before its "exp", to a new response for that user as it is now stored,
        as long as it is still active; once it is inactive or deleted, refreshing fails. */
    lemma {:induction false} RefreshRoundTrip(codec: Codec, user: UserRow, rows: map<string, UserRow>,
                                              issued: int, now: int)
      requires ValidCodec(codec)
      requires issued <= now < NumericDate(issued + jwtManager.refreshTokenExpiry) * NanosPerSecond
      ensures var token := GenerateAuthResponse(codec, user, issued).refreshToken;
        var id := Hex(user.id);
        (id in rows && rows[id].active ==> RefreshOutcome(codec, token, rows, now) == Ok(GenerateAuthResponse(codec, rows[id], now))) &&
        (id !in rows || !rows[id].active ==> RefreshOutcome(codec, token, rows, now) == Err(InvalidCredentials))
    {
      ValidateGenerated(codec, jwtManager, Hex(user.id), user.email, user.role, TokenTypeRefresh,
                        jwtManager.refreshTokenExpiry, issued, now);
    }

    /** An access token never refreshes, whoever it was issued to. */
    lemma AccessTokenDoesNotRefresh(codec: Codec, user: UserRow, rows: map<string, UserRow>, issued: int, now: int)
      requires ValidCodec(codec)
      ensures RefreshOutcome(codec, GenerateAuthResponse(codec, user, issued).accessToken, rows, now) ==
              Err(InvalidCredentials)
    {
      var id := Hex(user.id);
      var claims := IssuedClaims(jwtManager, id, user.email, user.role, TokenTypeAccess, jwtManager.accessTokenExpiry, issued);
      assert codec.decode(GenerateAuthResponse(codec, user, issued).accessToken) == Some(Decoded(HS256, claims));
    }
  }
}
