# A verified model of the service-catalogue API

This project is a Dafny model of a small Go HTTP service. The service keeps a catalogue of
services and their versions. It also manages user accounts with JWT access and refresh tokens.
Every API request first passes an authentication gate: a Bearer token or an `X-API-Key` header.

The model follows the program layer by layer:

- **Configuration** (`config.dfy`): the environment is a map. The API key list is split on
  commas and each key is trimmed.
- **Tokens** (`jwt.dfy`): claims, the access/refresh distinction and the validation error mapping.
  HS256 signing and parsing are an abstract `Codec` with the properties the library guarantees
  (`ValidCodec`).
- **Authentication gate** (`middleware.dfy`): a total function from a request, the configuration
  and the clock to `Proceed(context) | Reject(401, body)`. It includes the hand-built 401 body and
  its escaping, and the context getters.
- **Domain** (`domain.dfy`, `user.dfy`, `pagination.dfy`, `errors.dfy`):
  - records with their response conversions;
  - the sentinel errors with their exact texts;
  - pagination arithmetic on Go's truncating division;
  - bcrypt as an abstract `Hasher` (`ValidHasher`).
- **Query parsing** (`helpers.dfy`): `strconv.Atoi` and the page/limit/sort/order defaults,
  with the query as a key-to-value map.
- **In-memory repositories** (`*_repository_mock.dfy`):
  - each is a class holding a `map<string, Record>` of record objects;
  - records are classes too, so the table hands out the stored object itself, as the Go mocks
    hand out the stored pointer;
  - map iteration order is named by a ghost sequence of keys.
- **Services** (`service_service.dfy`, `version_service.dfy`, `user_service.dfy`,
  `auth_service.dfy`):
  - methods over the repositories;
  - ordered validation is stated once, as `FirstFailure` over a list of checks.
- **Handlers** (`*_handler.dfy`, `responses.dfy`):
  - each handler is a function of the request context, the decoded body (`None` when JSON
    decoding fails) and the service call, passed as a function parameter;
  - "the service is not called" becomes "the reply does not depend on that parameter";
  - the List handlers are methods with the response-filling loop.

The clock is a parameter `now`, in nanoseconds. A fresh `primitive.NewObjectID()` is a parameter
`freshId`. Strings are `seq<char>` with one character per Go byte.

The code is followed where its own test disagrees. `ErrVersionRequired` is not one of
`IsValidationError`'s errors, so the version Create handler answers a missing version with 500.
The handler test at `internal/handler/version_handler_test.go:57-70` expects 400.
`VersionHandlers.VersionRequiredIsInternal` states the 500.

## Model

| member | source | states |
|---|---|---|
| Primitive.HexDigit | internal/repository/mocks/service_repository_mock.go:49 | a nibble is written as a lower-case hex digit |
| Primitive.HexValue | internal/service/service_service.go:112 | a hex digit of either case reads back as a value 0..15 |
| Primitive.HexBytes | internal/repository/mocks/service_repository_mock.go:49 | two lower-case hex digits per byte |
| Primitive.Hex | internal/repository/mocks/service_repository_mock.go:49 | ObjectID.Hex is 24 lower-case hex digits |
| Primitive.DecodeHex | internal/service/service_service.go:112 | decoding halves the length |
| Primitive.ObjectIDFromHex | internal/service/service_service.go:112 | accepts exactly the 24-character strings of hex digits of either case |
| Primitive.DecodeHexBytes | internal/service/service_service.go:112 | decoding an encoding gives the bytes back |
| Primitive.FromHexOfHex | internal/domain/service.go:30-39 | ObjectIDFromHex(Hex(id)) == Some(id), so a response id parses back to the record id |
| Primitive.HexInjective | internal/repository/mocks/service_repository_mock.go:78-86 | distinct ids have distinct table keys |
| Primitive.HexBytesOfDecode | internal/service/service_service.go:112 | encoding a decoded lower-case hex string gives it back |
| Primitive.HexOfFromHex | internal/service/service_service.go:110-117 | a lower-case id accepted by ObjectIDFromHex is the Hex of the parsed id, so it is the table key |
| Primitive.GoDivNonNegative | internal/domain/pagination.go:38-41 | Go's truncating / and % agree with Euclid's on a non-negative dividend |
| Strings.ToLowerSpec | internal/service/user_service.go:42 | ToLower maps each character on its own and keeps the length |
| Strings.ToLowerIdempotent | internal/service/user_service.go:82 | lower-casing twice is lower-casing once |
| Strings.TrimLeftSpec | internal/service/user_service.go:43-44 | exactly the leading white space is dropped |
| Strings.TrimRightSpec | internal/service/user_service.go:43-44 | exactly the trailing white space is dropped |
| Strings.TrimSpaceSpec | internal/service/user_service.go:43-44 | the input is leading white space + result + trailing white space, and the result has none at either end |
| Strings.TrimSpaceSubset | internal/service/user_service.go:43-44 | TrimSpace only removes characters |
| Strings.TrimSpaceEmpty | internal/service/user_service.go:181 | TrimSpace is empty iff the input is all white space |
| Strings.TrimPrefix | pkg/auth/middleware.go:65-66 | with the prefix, input == prefix + result; without it, the input unchanged |
| Strings.JoinSplit | pkg/config/config.go:27 | joining the pieces of Split with the separator gives the input back |
| Strings.SplitPieces | pkg/config/config.go:27 | one more piece than separators, and no piece holds a separator |
| Errors.FirstFailureSpec | internal/service/auth_service.go:146-183 | an ordered check chain reports the error of the lowest failing check, and None iff no check fails |
| Errors.FirstFailureOfThree | internal/service/user_service.go:157-202 | a three-check chain is three guards in a row |
| Errors.FirstFailureAppend | internal/service/user_service.go:157-202 | running two chains in sequence is the first chain's error, else the second's |
| Pagination.DefaultPaginationParams | internal/domain/pagination.go:10-15 | page 1, limit 20 |
| Pagination.OffsetPages | internal/domain/pagination.go:18-20 | page 1 starts at 0 and each page starts limit records after the one before |
| Pagination.PageOf | internal/repository/mocks/user_repository_mock.go:153-163 | the page has min(limit, max(0, n - offset)) records, each the record at offset + i |
| Pagination.Window | internal/repository/mocks/user_repository_mock.go:154-163 | the window from start has min(count, max(0, n - start)) records, in order |
| Pagination.NewPaginatedResult | internal/domain/pagination.go:37-52 | data, total, page and limit are kept unchanged |
| Pagination.TotalPagesIsCeiling | internal/domain/pagination.go:37-41 | the page count is the ceiling of total/limit, and 0 iff total is 0 |
| Pagination.DefaultListParams | internal/domain/pagination.go:64-70 | sort "created_at", order "desc", the default pagination, empty search and name |
| Pagination.IsValidSortField | internal/domain/pagination.go:73-85 | the search loop answers true iff the field is name, created_at or updated_at |
| Config.GetEnv | pkg/config/config.go:38-43 | a set, non-empty value wins, otherwise the default |
| Config.Load | pkg/config/config.go:17-35 | the three settings from their variables or defaults; the key list is the trimmed comma-separated pieces of API_KEYS |
| Config.TrimEach | pkg/config/config.go:29-31 | the in-place loop leaves each key trimmed, in order, count kept |
| Config.KeyListPieces | pkg/config/config.go:25-32 | a non-empty value gives one key per comma-separated piece, in order, each trimmed and comma-free |
| Config.KeyListEmpty | pkg/config/config.go:25-26 | an unset or empty API_KEYS gives no keys |
| Config.HasAPIKeys | pkg/config/config.go:46-48 | true iff the key list is non-empty |
| Config.IsValidAPIKey | pkg/config/config.go:51-58 | the scan answers true iff the key equals a configured key |
| Query.Atoi | internal/handler/helpers.go:27 | a parsed value is an int64, comes from digits, and is negative only after a '-' |
| Query.DigitsValueFormat | internal/handler/helpers.go:27 | the decimal digits of n read back as n |
| Query.AtoiFormatNat | internal/handler/helpers.go:27 | Atoi reads back every non-negative int64 written in decimal |
| Query.AtoiFormatNegative | internal/handler/helpers.go:27 | Atoi of "-" + digits is the negative number |
| Query.PositiveInt | internal/handler/helpers.go:26-29 | a value overrides its default iff it is non-empty and parses to a positive integer |
| Query.ParsePaginationParams | internal/handler/helpers.go:20-42 | page and limit default to 1 and 20, are replaced only by positive integers, the limit capped at 100; always page >= 1 and 1 <= limit <= 100 |
| Query.PageRoundTrip | internal/handler/helpers.go:26-29 | a page written in decimal is the page parsed |
| Query.LimitRoundTrip | internal/handler/helpers.go:32-39 | a limit written in decimal is parsed, capped at 100 |
| Query.NonPositiveIgnored | internal/handler/helpers.go:26-39 | zero and negative values are ignored, not clamped |
| Query.NormalizeOrder | internal/handler/helpers.go:68-77 | "asc" iff the value is "asc" or "ascending", otherwise "desc" |
| Query.ParseListParams | internal/handler/helpers.go:45-80 | the pagination as ParsePaginationParams gives it; search and name verbatim; sort verbatim or "created_at"; order normalised |
| Query.EmptyQueryDefaults | internal/handler/helpers.go:45-80 | an empty query gives exactly DefaultListParams |
| Domain.Service.constructor | internal/domain/service.go:10-17 | the record has exactly the given fields |
| Domain.ServiceToResponse | internal/domain/service.go:30-39 | the hex id parses back to the id; every other field is copied |
| Domain.ServiceToResponseInjective | internal/domain/service.go:30-39 | a response determines the service it was made from |
| Domain.Version.constructor | internal/domain/version.go:10-15 | the record has exactly the given fields |
| Domain.VersionToResponse | internal/domain/version.go:26-33 | both hex ids parse back; version and timestamp are copied |
| Domain.VersionToResponseInjective | internal/domain/version.go:26-33 | a response determines the version it was made from |
| Domain.ServiceVersion.constructor | internal/domain/service_version.go:10-17 | the record has exactly the given fields |
| Users.User.constructor | internal/domain/user.go:35-45 | the record has exactly the given fields |
| Users.User.SetPassword | internal/domain/user.go:74-81 | only PasswordHash may change; on a hashing error it is kept; with a valid hasher and at most 72 bytes there is no error, and the new hash accepts exactly the passwords with that password's 72-byte key stream |
| Users.ExtensionStillMatches | internal/domain/user.go:84-87 | the hash of a 72-byte password also accepts every extension of it |
| Users.KeyStreamInjective | internal/domain/user.go:84-87 | for NUL-free passwords of at most 72 bytes, equal key streams mean equal passwords |
| Users.DistinctPasswordsRejected | internal/domain/user.go:84-87 | for such passwords a hash rejects every password but its own |
| Users.UserToResponse | internal/domain/user.go:60-71 | hex id, email, names, role, active flag and timestamps are copied |
| Users.UserResponseOmitsHash | internal/domain/user.go:48-71 | two users have the same response iff they differ at most in the password hash |
| Jwt.NewManager | pkg/jwt/jwt.go:42-49 | the four settings are kept as given |
| Jwt.NumericDate | pkg/jwt/jwt.go:66-70 | the instant truncated to whole seconds |
| Jwt.IssuedClaims | pkg/jwt/jwt.go:62-76 | user id, email, role and type as given; iat = nbf = now; exp = now + expiry; sub = user id; iss = the manager's issuer |
| Jwt.GenerateToken | pkg/jwt/jwt.go:62-80 | under a valid codec, the token decodes to HS256 and the issued claims |
| Jwt.GenerateAccessToken | pkg/jwt/jwt.go:52-54 | an "access" token with the access lifetime |
| Jwt.GenerateRefreshToken | pkg/jwt/jwt.go:57-59 | a "refresh" token with the refresh lifetime |
| Jwt.AccessRefreshDiffer | pkg/jwt/jwt.go:52-59 | the two kinds of token differ only in type and lifetime |
| Jwt.ValidateToken | pkg/jwt/jwt.go:83-105 | expiry is ErrExpiredToken, every other failure ErrInvalidToken; Ok iff it decodes, the method is HMAC, the signature verifies and it has not expired |
| Jwt.ValidateAccessToken | pkg/jwt/jwt.go:108-119 | Ok iff ValidateToken is Ok with type "access"; another type is ErrInvalidTokenType; ValidateToken's errors pass through |
| Jwt.ValidateRefreshToken | pkg/jwt/jwt.go:122-133 | the same with type "refresh" |
| Jwt.NoTokenIsBoth | pkg/jwt/jwt.go:108-133 | no token passes both validators |
| Jwt.ValidateGenerated | pkg/jwt/jwt.go:62-105 | a generated token validates, until its exp, to exactly its issued claims |
| Jwt.AccessRoundTrip | pkg/jwt/jwt.go:52-119 | a fresh access token validates with the same user id, email and role |
| Jwt.RefreshIsNotAccess | pkg/jwt/jwt.go:108-119 | a valid refresh token is ErrInvalidTokenType as an access token |
| Jwt.WrongKeyRejected | pkg/jwt/jwt.go:84-90 | a token signed under another key is ErrInvalidToken |
| Jwt.ExpiredRejected | pkg/jwt/jwt.go:92-97 | after its exp second a genuine token is ErrExpiredToken |
| Jwt.GetAccessTokenExpiry | pkg/jwt/jwt.go:136-138 | the access lifetime in whole seconds, truncated toward zero; exact below 2^24 s, where float64 rounding agrees |
| Auth.SecureCompare | pkg/auth/middleware.go:141-143 | true iff the strings are equal |
| Auth.FirstIndex | pkg/auth/middleware.go:131-138 | the smallest index holding the key, or -1 iff it is absent |
| Auth.FindValidKeyIndex | pkg/auth/middleware.go:131-138 | the loop returns FirstIndex |
| Auth.AuthenticateAPIKey | pkg/auth/middleware.go:112-127 | succeeds iff the key is configured, attaching its first index and auth type "api_key"; an empty list fails |
| Auth.AuthenticateJWT | pkg/auth/middleware.go:92-109 | a nil manager fails; otherwise succeeds iff ValidateAccessToken does, attaching its user id, email, role and auth type "jwt" |
| Auth.EscapeJSONEach | pkg/auth/middleware.go:153-157 | the two ReplaceAll passes escape each character on its own |
| Auth.EscapeRoundTrip | pkg/auth/middleware.go:153-157 | reading the escaped text as a JSON string gives the message back |
| Auth.EscapeIdentity | pkg/auth/middleware.go:153-157 | a string without a backslash or a quote is unchanged |
| Auth.UnauthorizedBody | pkg/auth/middleware.go:146-150 | the body is the fixed prefix, the escaped message, then the fixed suffix |
| Auth.PlainBody | pkg/auth/middleware.go:149 | for a message with nothing to escape the body is exactly `{"error":"unauthorized","message":"` + message + `"}` |
| Auth.FixedMessagesPlain | pkg/auth/middleware.go:71-87 | the three messages need no escaping |
| Auth.Authenticate | pkg/auth/middleware.go:55-89 | every rejection is 401 with one of the three bodies |
| Auth.HealthBypass | pkg/auth/middleware.go:58-61 | "/health" proceeds with the context untouched, whatever the headers |
| Auth.BearerDecides | pkg/auth/middleware.go:64-73 | with the Bearer prefix the decision is that of AuthenticateJWT alone, and X-API-Key is never consulted |
| Auth.BearerAccepted | pkg/auth/middleware.go:67-70 | a valid access token proceeds with its user id, email, role and auth type "jwt" |
| Auth.BearerRefreshRejected | pkg/auth/middleware.go:93-100 | a refresh token as Bearer, or any Bearer token without a manager, gets 401 "invalid or expired token" |
| Auth.APIKeyDecides | pkg/auth/middleware.go:76-83 | without Bearer, a non-empty key proceeds iff configured, with its first index; otherwise 401 "invalid credentials" |
| Auth.NoKeysFailClosed | pkg/auth/middleware.go:113-115 | with no keys configured no API key gets in |
| Auth.NothingPresented | pkg/auth/middleware.go:86-87 | with neither header the answer is 401 "authentication required" |
| Auth.ProceedsIff | pkg/auth/middleware.go:55-89 | the next handler runs iff the path is "/health", or a valid Bearer access token, or a configured API key without Bearer |
| Auth.GetAPIKeyID | pkg/auth/middleware.go:160-163 | the index and true, or (0, false) when none was attached |
| Auth.GetString | pkg/auth/middleware.go:166-181 | the value and true, or ("", false) |
| Auth.GetAuthType | pkg/auth/middleware.go:184-187 | the type name and true, or ("", false) |
| Auth.IsJWTAuth | pkg/auth/middleware.go:190-193 | true iff the auth type was set to "jwt" |
| Auth.IsAPIKeyAuth | pkg/auth/middleware.go:196-199 | true iff the auth type was set to "api_key" |
| Auth.EmptyContextGetters | pkg/auth/middleware.go:160-199 | on an untouched context every getter reports nothing |
| Auth.ExactlyOneMeans | pkg/auth/middleware.go:64-84 | a request let through (not health) carries a JWT identity and no key index, or a key index and no user, never both |
| UserRepositoryMock.MockUserRepository.constructor | internal/repository/mocks/user_repository_mock.go:28-32 | an empty table, trivially with unique emails |
| UserRepositoryMock.MockUserRepository.Create | internal/repository/mocks/user_repository_mock.go:35-59 | an exact-email duplicate is ErrEmailAlreadyExists with nothing stored or changed; otherwise a zero id is filled, both timestamps set and the record stored under its hex id; unique emails are preserved |
| UserRepositoryMock.MockUserRepository.Insert | internal/repository/mocks/user_repository_mock.go:50-57 | stamp then store, with the account fields untouched |
| UserRepositoryMock.MockUserRepository.Stamp | internal/repository/mocks/user_repository_mock.go:50-55 | zero id filled, both timestamps set |
| UserRepositoryMock.MockUserRepository.Store | internal/repository/mocks/user_repository_mock.go:57 | the entry is added under the hex id and unique emails are preserved |
| UserRepositoryMock.MockUserRepository.GetByID | internal/repository/mocks/user_repository_mock.go:62-75 | the stored object, or ErrUserNotFound |
| UserRepositoryMock.MockUserRepository.GetByEmail | internal/repository/mocks/user_repository_mock.go:78-92 | a stored user with exactly that email, or ErrUserNotFound iff none has it |
| UserRepositoryMock.MockUserRepository.Update | internal/repository/mocks/user_repository_mock.go:95-118 | absent id: ErrUserNotFound, nothing changed; email held by another id: ErrEmailAlreadyExists, nothing changed; otherwise UpdatedAt = now and the entry replaced; unique emails preserved |
| UserRepositoryMock.MockUserRepository.Touch | internal/repository/mocks/user_repository_mock.go:115 | UpdatedAt = now, nothing else |
| UserRepositoryMock.MockUserRepository.Put | internal/repository/mocks/user_repository_mock.go:116 | the entry is replaced; when no other user holds its email, emails are unique afterwards |
| UserRepositoryMock.MockUserRepository.ScanOtherEmails | internal/repository/mocks/user_repository_mock.go:109-113 | true iff a user under another id has the email |
| UserRepositoryMock.MockUserRepository.Delete | internal/repository/mocks/user_repository_mock.go:121-135 | absent id: ErrUserNotFound; otherwise exactly that key is removed |
| UserRepositoryMock.MockUserRepository.CopyAll | internal/repository/mocks/user_repository_mock.go:146-149 | every record copied once, in map order |
| UserRepositoryMock.MockUserRepository.List | internal/repository/mocks/user_repository_mock.go:138-166 | total = n; the page of the copied records, with min(limit, max(0, n - offset)) records |
| UserRepositoryMock.MockUserRepository.ExistsByEmail | internal/repository/mocks/user_repository_mock.go:169-183 | true iff some user has exactly that email |
| UserRepositoryMock.MockUserRepository.AddUser | internal/repository/mocks/user_repository_mock.go:186-194 | stored as given except a zero id, with no email check |
| UserRepositoryMock.MockUserRepository.Reset | internal/repository/mocks/user_repository_mock.go:197-201 | the table is empty |
| UserRepositoryMock.MockUserRepository.GetAllUsers | internal/repository/mocks/user_repository_mock.go:204-213 | every stored object once, in map order |
| ServiceRepositoryMock.MockServiceRepository.constructor | internal/repository/mocks/service_repository_mock.go:26-30 | an empty table |
| ServiceRepositoryMock.MockServiceRepository.Create | internal/repository/mocks/service_repository_mock.go:33-51 | a zero id is filled; CreatedAt = UpdatedAt = now; Revision = 1; stored under its hex id |
| ServiceRepositoryMock.MockServiceRepository.Stamp | internal/repository/mocks/service_repository_mock.go:41-47 | the field writes of Create; stored records keep their ids |
| ServiceRepositoryMock.MockServiceRepository.GetByID | internal/repository/mocks/service_repository_mock.go:54-67 | the stored object, or ErrNotFound |
| ServiceRepositoryMock.MockServiceRepository.Update | internal/repository/mocks/service_repository_mock.go:70-87 | absent id: ErrNotFound, nothing changed; otherwise Revision + 1, UpdatedAt = now, entry replaced |
| ServiceRepositoryMock.MockServiceRepository.Delete | internal/repository/mocks/service_repository_mock.go:90-104 | absent id: ErrNotFound; otherwise exactly that key is removed |
| ServiceRepositoryMock.MockServiceRepository.CopyAll | internal/repository/mocks/service_repository_mock.go:115-118 | every record copied once, in map order |
| ServiceRepositoryMock.MockServiceRepository.List | internal/repository/mocks/service_repository_mock.go:107-135 | search, name and sort ignored; total = n; min(limit, max(0, n - offset)) records |
| ServiceRepositoryMock.MockServiceRepository.AddService | internal/repository/mocks/service_repository_mock.go:138-146 | stored as given except a zero id; no timestamps or revision |
| ServiceRepositoryMock.MockServiceRepository.Reset | internal/repository/mocks/service_repository_mock.go:149-153 | the table is empty |
| VersionRepositoryMock.MockVersionRepository.constructor | internal/repository/mocks/version_repository_mock.go:28-32 | an empty table |
| VersionRepositoryMock.MockVersionRepository.Create | internal/repository/mocks/version_repository_mock.go:35-50 | a zero id is filled; CreatedAt = now; stored with no duplicate check |
| VersionRepositoryMock.MockVersionRepository.GetByID | internal/repository/mocks/version_repository_mock.go:53-66 | the stored object, or ErrNotFound |
| VersionRepositoryMock.MockVersionRepository.Delete | internal/repository/mocks/version_repository_mock.go:69-83 | absent id: ErrNotFound; otherwise exactly that key is removed |
| VersionRepositoryMock.MockVersionRepository.ListByServiceID | internal/repository/mocks/version_repository_mock.go:86-101 | exactly the service's versions, each once |
| VersionRepositoryMock.MockVersionRepository.CountByServiceID | internal/repository/mocks/version_repository_mock.go:104-119 | the number of the service's versions, equal to ListByServiceID's length |
| VersionRepositoryMock.MockVersionRepository.KeysOfService | internal/repository/mocks/version_repository_mock.go:94-99 | a filtering scan that met each matching key once enumerates the service's rows |
| VersionRepositoryMock.MockVersionRepository.DeleteByServiceID | internal/repository/mocks/version_repository_mock.go:122-136 | exactly the service's versions are removed, all others kept |
| VersionRepositoryMock.MockVersionRepository.ExistsByServiceIDAndVersion | internal/repository/mocks/version_repository_mock.go:139-153 | true iff a stored version matches both the service and the version string |
| VersionRepositoryMock.MockVersionRepository.AddVersion | internal/repository/mocks/version_repository_mock.go:156-164 | stored as given except a zero id |
| VersionRepositoryMock.MockVersionRepository.Reset | internal/repository/mocks/version_repository_mock.go:167-171 | the table is empty |
| ServiceVersionRepositoryMock.MockServiceVersionRepository.constructor | internal/repository/mocks/service_version_repository_mock.go:26-30 | an empty table |
| ServiceVersionRepositoryMock.MockServiceVersionRepository.Create | internal/repository/mocks/service_version_repository_mock.go:33-50 | a zero id is filled; CreatedAt set only when still zero; stored under its hex id |
| ServiceVersionRepositoryMock.MockServiceVersionRepository.GetByID | internal/repository/mocks/service_version_repository_mock.go:53-66 | the stored object, or ErrNotFound |
| ServiceVersionRepositoryMock.MockServiceVersionRepository.GetByServiceIDAndRevision | internal/repository/mocks/service_version_repository_mock.go:69-83 | a snapshot of that service at that revision, or ErrNotFound iff none exists |
| ServiceVersionRepositoryMock.MockServiceVersionRepository.CopyService | internal/repository/mocks/service_version_repository_mock.go:94-99 | the service's snapshots copied once each, in map order |
| ServiceVersionRepositoryMock.MockServiceVersionRepository.ListByServiceID | internal/repository/mocks/service_version_repository_mock.go:86-116 | filtered by service; total = number of matches; then paginated like the other tables |
| ServiceVersionRepositoryMock.MockServiceVersionRepository.DeleteByServiceID | internal/repository/mocks/service_version_repository_mock.go:119-133 | exactly the service's snapshots are removed |
| ServiceVersionRepositoryMock.MockServiceVersionRepository.AddVersion | internal/repository/mocks/service_version_repository_mock.go:136-144 | stored as given except a zero id |
| ServiceVersionRepositoryMock.MockServiceVersionRepository.Reset | internal/repository/mocks/service_version_repository_mock.go:147-151 | the table is empty |
| ServiceRules.FieldError | internal/service/service_service.go:149-163 | empty is the first error; over the limit the second; None iff 0 < length <= limit |
| ServiceRules.ValidateServiceFields | internal/service/service_service.go:149-180 | name empty, name too long, description empty, description too long, in that order; None iff both fit |
| ServiceRules.PatchError | internal/service/service_service.go:82-100 | a patch with neither field passes |
| ServiceRules.Patched | internal/service/service_service.go:86-100 | each provided field replaced, the rest unchanged |
| ServiceRules.PartlyPatched | internal/service/service_service.go:86-96 | after a failed description check, the name is already written |
| ServiceRules.PatchBothFieldsAsUpdate | internal/service/service_service.go:73-107 | a patch with both fields is checked exactly as an Update |
| ServiceRules.PatchPartialWrite | internal/service/service_service.go:86-96 | a valid name with an empty description fails with ErrDescriptionRequired but writes the name |
| ServiceRules.IsValidationError | internal/service/service_service.go:188-195 | true iff one of the four field errors, ErrInvalidSortField or ErrInvalidID |
| ServiceRules.ValidatorErrorsAreValidation | internal/service/service_service.go:149-195 | every validator and patch error is a validation error; ErrVersionRequired and ErrNotFound are not |
| ServiceRules.ListDefaults | internal/service/service_service.go:127-143 | sort and order defaulted; limit 20 if 0, page 1 if 0; limit capped at 100 |
| ServiceRules.ListDefaultsBounds | internal/service/service_service.go:127-143 | page >= 1 and 1 <= limit <= 100 afterwards, and defaulting twice is defaulting once |
| ServiceRules.ServiceService.constructor | internal/service/service_service.go:17-21 | holds the given table |
| ServiceRules.ServiceService.Create | internal/service/service_service.go:24-40 | a validation error stores nothing; otherwise the table's Create with the request's fields |
| ServiceRules.ServiceService.GetByID | internal/service/service_service.go:43-45 | delegates to the table |
| ServiceRules.ServiceService.Update | internal/service/service_service.go:48-70 | validates before the lookup; overwrites both fields of the stored object, increments the revision, stamps UpdatedAt; returns the record re-read |
| ServiceRules.ServiceService.UpdateStored | internal/service/service_service.go:61-69 | the writes and save of Update on the stored object |
| ServiceRules.ServiceService.Overwrite | internal/service/service_service.go:61-62 | only name and description change |
| ServiceRules.ServiceService.Patch | internal/service/service_service.go:73-107 | lookup first, so ErrNotFound outranks bad fields; a failed check leaves the partly patched record; otherwise the patched record saved |
| ServiceRules.ServiceService.PatchStored | internal/service/service_service.go:80-106 | Patch on the stored object |
| ServiceRules.ServiceService.PatchFields | internal/service/service_service.go:82-100 | the checks and writes in order; Ok iff PatchError is None |
| ServiceRules.ServiceService.Delete | internal/service/service_service.go:110-117 | ErrInvalidID with the table untouched unless the id is 24 hex digits; then the table's Delete |
| ServiceRules.ServiceService.List | internal/service/service_service.go:120-146 | ErrInvalidSortField before the table is read; otherwise the table's List with the defaulted parameters |
| VersionRules.VersionService.constructor | internal/service/version_service.go:18-23 | holds the two tables |
| VersionRules.VersionService.Create | internal/service/version_service.go:26-63 | ErrVersionRequired, ErrInvalidID, ErrNotFound, ErrDuplicateVersion in that order, nothing stored; otherwise a version with the parsed service id and the requested string |
| VersionRules.VersionService.GetByID | internal/service/version_service.go:66-85 | Ok iff the service exists, the version exists and belongs to it; otherwise ErrNotFound |
| VersionRules.VersionService.Delete | internal/service/version_service.go:88-107 | removes the version under exactly those conditions, otherwise nothing |
| VersionRules.VersionService.ListByServiceID | internal/service/version_service.go:110-118 | ErrNotFound for a missing service, otherwise every version of it once |
| UserRules.DefaultedRole | internal/service/user_service.go:194-196 | the role the check sees is never empty |
| UserRules.CreateChecksInOrder | internal/service/user_service.go:157-202 | validateCreateRequest is the first failing check of the ordered list |
| UserRules.UpdateChecksInOrder | internal/service/user_service.go:205-236 | validateUpdateRequest is the first failing check of the ordered list |
| UserRules.ChangePasswordChecksInOrder | internal/service/user_service.go:123-135 | either password empty, then the new one too short, then too long |
| UserRules.CreateValidated | internal/service/user_service.go:157-202 | a request that passes has a password bcrypt accepts, a valid or empty role, a well-formed email and a non-blank first name |
| UserRules.EmptyRoleCreateButNotUpdate | internal/service/user_service.go:194-196 | the empty role passes create as "user" does, and fails update |
| UserRules.UpdateHasNoPasswordChecks | internal/service/user_service.go:205-236 | update never reports a password error |
| UserRules.UpdateAsCreateWithoutPassword | internal/service/user_service.go:157-236 | update's checks are create's without the password |
| UserRules.Edited | internal/service/user_service.go:93-100 | email lower-cased, names trimmed, role always overwritten; active only if given |
| UserRules.NewUser | internal/service/user_service.go:41-53 | an active record with zero id and timestamps and the password's hash, or ErrHashFailure |
| UserRules.NewAccount | internal/service/user_service.go:41-58 | a hashing error stores nothing; otherwise the new record stored under the fresh id |
| UserRules.UserService.constructor | internal/service/user_service.go:19-23 | holds the given table |
| UserRules.UserService.Create | internal/service/user_service.go:26-61 | validation, then ErrEmailAlreadyExists for a taken lower-cased email before hashing; a created user is active, with lower-cased email, trimmed names and the role as given (an empty role stays ""); the stored hash accepts exactly the passwords with the password's key stream |
| UserRules.UserService.GetByID | internal/service/user_service.go:64-66 | delegates to the table |
| UserRules.UserService.Update | internal/service/user_service.go:69-108 | validation before the lookup; the email is checked only when it changes; fields written in place, then saved |
| UserRules.UserService.UpdateStored | internal/service/user_service.go:81-107 | Update on the stored object, including a duplicate the table's Update catches after the in-place edit |
| UserRules.UserService.SaveEdited | internal/service/user_service.go:93-107 | edit in place, then the table's Update |
| UserRules.UserService.SaveStored | internal/service/user_service.go:103 | the table's Update on the stored object |
| UserRules.UserService.EditAccount | internal/service/user_service.go:94-100 | only email, names, role and active are written |
| UserRules.UserService.Delete | internal/service/user_service.go:111-113 | delegates to the table |
| UserRules.UserService.List | internal/service/user_service.go:116-118 | delegates to the table |
| UserRules.UserService.ChangePassword | internal/service/user_service.go:121-154 | checks in order, then ErrUserNotFound, then ErrInvalidCredentials for a wrong current password with nothing saved; otherwise the new hash stored, accepting exactly the new password's key stream, so the old password stops working unless its key stream is the same |
| UserRules.UserService.ChangeStoredPassword | internal/service/user_service.go:131-153 | ChangePassword on the stored object |
| AuthRules.RegisterChecksInOrder | internal/service/auth_service.go:146-183 | the first failing check of email, password, names, in order |
| AuthRules.RegisterAsCreate | internal/service/auth_service.go:146-183 | registration is validated exactly as an administrator's create with role "user" |
| AuthRules.AuthService.constructor | internal/service/auth_service.go:21-26 | holds the table and the manager |
| AuthRules.AuthService.GenerateAuthResponse | internal/service/auth_service.go:123-143 | type "Bearer", ExpiresIn the access seconds, User the user's response |
| AuthRules.AuthService.ResponseTokensIdentifyUser | internal/service/auth_service.go:123-143 | the access token validates to the user's hex id, email and role; the refresh token validates as refresh and is ErrInvalidTokenType as access |
| AuthRules.AuthService.Register | internal/service/auth_service.go:29-65 | validation, then ErrEmailAlreadyExists with nothing stored; otherwise an active "user" with lower-cased email and trimmed names, whose hash accepts exactly the password's key stream, and its tokens |
| AuthRules.AuthService.Login | internal/service/auth_service.go:68-98 | ErrEmailRequired, then ErrPasswordRequired; every other failure is ErrInvalidCredentials; with unique emails, Ok iff the user is active and the password matches |
| AuthRules.AuthService.RefreshOutcome | internal/service/auth_service.go:101-120 | every failure is ErrInvalidCredentials; Ok iff the refresh token is valid and names an active stored user; then that user's fresh tokens |
| AuthRules.AuthService.RefreshToken | internal/service/auth_service.go:101-120 | the method answers RefreshOutcome on the table |
| AuthRules.AuthService.RefreshRoundTrip | internal/service/auth_service.go:101-143 | the refresh token of a response refreshes to new tokens for the same active stored user |
| AuthRules.AuthService.AccessTokenDoesNotRefresh | internal/service/auth_service.go:103-106 | an access token never refreshes |
| Responses.ErrorCode | pkg/response/response.go:31-49 | the helpers' error codes exist only for 400, 404, 409 and 500 |
| Responses.ResponsesOf | internal/handler/user_handler.go:102-105 | the loop fills one response per record, in order |
| UserHandlers.IsAdmin | internal/handler/user_handler.go:291-297 | true iff a role is in the context and it is "admin" |
| UserHandlers.CanAccessUser | internal/handler/user_handler.go:300-312 | true iff admin, or the context user id is the target |
| UserHandlers.APIKeyNeverAdmin | internal/handler/user_handler.go:291-312 | a request let in by API key is never admin and reaches no user |
| UserHandlers.HandleError | internal/handler/user_handler.go:315-339 | 404, 400 "invalid user id format", 409, 401, 400 with the text, else 500 |
| UserHandlers.HandleErrorStatuses | internal/handler/user_handler.go:315-339 | only 400, 401, 404, 409 and 500 are used |
| UserHandlers.Create | internal/handler/user_handler.go:48-68 | 403 before the body is read; then 400 for a bad body; 201 with the user, otherwise the service error mapped by HandleError |
| UserHandlers.Get | internal/handler/user_handler.go:126-146 | 400 for an empty id, then 403 with no lookup, then 200 or the mapped error |
| UserHandlers.Update | internal/handler/user_handler.go:165-191 | 403, then 400 for an empty id, then 400 for a bad body; 200 with the user, otherwise the service error mapped by HandleError |
| UserHandlers.Delete | internal/handler/user_handler.go:208-227 | 403, then 400 for an empty id; 204 on success |
| UserHandlers.GetMe | internal/handler/user_handler.go:240-254 | 401 without a user id; 200 with the user, otherwise the lookup error mapped by HandleError |
| UserHandlers.ChangePassword | internal/handler/user_handler.go:269-288 | 401 without a user id, then 400 for a bad body; 200 with a fixed message, otherwise the service error mapped by HandleError |
| UserHandlers.List | internal/handler/user_handler.go:84-109 | 403 for non-admins; 200 with one response per record, in order, and the pagination |
| UserHandlers.AdminCheckedFirst | internal/handler/user_handler.go:50-53 | a non-admin gets the same 403 from Create, Update and Delete whatever the body, the id and the service |
| UserHandlers.GetDeniedWithoutLookup | internal/handler/user_handler.go:132-137 | a denied Get does not depend on the lookup |
| UserHandlers.OwnRecordTwoWays | internal/handler/user_handler.go:126-146 | a user's Get of their own id is their GetMe |
| AuthHandlers.HandleError | internal/handler/auth_handler.go:115-134 | the nine field errors 400 with their text, 409 with its text, 401 with a fixed text, else 500 |
| AuthHandlers.Register | internal/handler/auth_handler.go:37-51 | 400 for a bad body; 201 with the tokens |
| AuthHandlers.Login | internal/handler/auth_handler.go:65-79 | 400 for a bad body; 200 with the tokens |
| AuthHandlers.Refresh | internal/handler/auth_handler.go:93-112 | 400 for a bad body, then 400 "refresh_token is required" before the service; 200 with the tokens, otherwise the service error mapped by HandleError |
| AuthHandlers.CredentialFailuresIndistinguishable | internal/handler/auth_handler.go:129-130 | every credential failure gives the same 401 |
| AuthHandlers.HashFailureIsInternal | internal/handler/auth_handler.go:132-133 | a bcrypt failure is 500 |
| ServiceHandlers.HandleError | internal/handler/service_handler.go:234-251 | ErrNotFound first as 404 "service not found"; validation errors 400 with their text; else 500 |
| ServiceHandlers.InvalidIDSwallowed | internal/handler/service_handler.go:240-248 | ErrInvalidID is answered "invalid ID format"; "invalid service id format" is never written |
| ServiceHandlers.Create | internal/handler/service_handler.go:39-53 | 400 for a bad body; 201 with the service |
| ServiceHandlers.Get | internal/handler/service_handler.go:114-128 | 400 for an empty id; 200 with the service |
| ServiceHandlers.Update | internal/handler/service_handler.go:145-165 | 400 for an empty id, then a bad body; 200 |
| ServiceHandlers.Patch | internal/handler/service_handler.go:182-202 | 400 for an empty id, then a bad body; 200 |
| ServiceHandlers.Delete | internal/handler/service_handler.go:218-231 | 400 for an empty id; 204 on success |
| ServiceHandlers.List | internal/handler/service_handler.go:79-98 | parameters parsed from the query; 200 with one response per record, in order, and the pagination |
| ServiceHandlers.EmptyIDBeforeService | internal/handler/service_handler.go:115-119 | with an empty id the reply does not depend on the body or the service |
| VersionHandlers.HandleError | internal/handler/version_handler.go:120-142 | 404 "resource not found", 409, validation errors 400 with their text, else 500 |
| VersionHandlers.InvalidIDSwallowed | internal/handler/version_handler.go:131-139 | ErrInvalidID is answered "invalid ID format"; "invalid id format" is never written |
| VersionHandlers.VersionRequiredIsInternal | internal/handler/version_handler.go:120-142 | a missing version string is answered 500 |
| VersionHandlers.Create | internal/handler/version_handler.go:27-47 | 400 for an empty service id, then a bad body; 201 with the version |
| VersionHandlers.Get | internal/handler/version_handler.go:75-95 | 400 for an empty service id, then an empty version id; 200 |
| VersionHandlers.Delete | internal/handler/version_handler.go:98-117 | the same guards; 204 on success |
| VersionHandlers.List | internal/handler/version_handler.go:50-72 | 400 for an empty service id; 200 with one response per version, in order |

## Left out

- The MongoDB repositories, connection retry and index setup: database and network I/O. The
  services run against the in-memory tables.
- HMAC-SHA256 signing and compact JWS parsing: a foreign library. They are the abstract `Codec`,
  and `ValidCodec` lists what is relied on: round trip, wrong-key rejection, monotone expiry.
- Jwt.GenerateToken: a signing error of the library is not modelled; signing always yields a token.
- bcrypt: a foreign one-way hash. It is the abstract `Hasher`. `ValidHasher` says hashing fails
  exactly above 72 bytes. It also says a hash accepts exactly the passwords with the same 72-byte
  Blowfish key stream as the hashed one: the password, a NUL byte, repeated and cut at 72 bytes.
  Collisions of the hash itself are not modelled.
- Jwt.GetAccessTokenExpiry: the float64 intermediate of `Duration.Seconds()` is not modelled. The
  model truncates the exact quotient. For lifetimes of 2^24 seconds or more that end within a few
  nanoseconds of a whole second, Go rounds up to the next second (16777216999999999 ns gives
  16777217).
- The timing behaviour of `subtle.ConstantTimeCompare`: `SecureCompare` is equality.
- Unicode case folding and white space: ToLower and TrimSpace are ASCII only.
- The wall clock and `primitive.NewObjectID()`: both are parameters. The access and refresh
  tokens of one response are issued at the same `now`.
- The mutexes and the `*Func` override hooks of the mocks: test-only concurrency and overrides.
- Go map iteration order: a ghost key sequence names it. Nothing is promised about the order itself.
- HTTP and JSON plumbing: the router, `main`, the health handler, and JSON encoding and
  decoding. A decoded body is an `Option`; a reply is a status with a message or a payload.
- The "error" code field of 401 and 403 replies: the helpers the handlers call for them do not
  exist in `pkg/response/response.go`. Only the status and the message are modelled.
- AuthRules.AuthService.Login: only the mock's lookup error, ErrUserNotFound, can occur. Passing
  other repository errors through unchanged has no counterpart in the model.
- UserRules.UserService.Create and AuthRules.AuthService.Register: they do not restate that email
  uniqueness is preserved. The table's Create states it.
- ServiceRepositoryMock.MockServiceRepository.List, UserRepositoryMock.MockUserRepository.List,
  ServiceVersionRepositoryMock.MockServiceVersionRepository.ListByServiceID: they require page and
  limit >= 1. In Go a negative offset panics and a zero limit divides by zero.
- The email regular expression: it is written out as the predicate `IsEmail`, not as a regex engine.
- The NewServiceService constructor: it is modelled with its one argument, as declared.
