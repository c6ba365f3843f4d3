/** The authentication gate every API request passes through (pkg/auth/middleware.go): the
    health path is open, a Bearer token is tried first and excludes any fallback, then the
    X-API-Key header, and anything else is refused with a hand-built 401 JSON body. The
    request context is a value; each `context.WithValue` is a field update of it. */
module Auth {
  import opened Primitive
  import opened Strings
  import opened Config
  import opened Jwt

  const APIKeyHeader: string := "X-API-Key"
  const AuthorizationHeader: string := "Authorization"
  const BearerPrefix: string := "Bearer "
  const HealthPath: string := "/health"
  const StatusUnauthorized: int := 401

  datatype AuthType = APIKeyAuth | JWTAuth

  /** The string value stored under the auth_type key. */
  function AuthTypeName(t: AuthType): string {
    match t
    case APIKeyAuth => "api_key"
    case JWTAuth => "jwt"
  }

  /** The five values the middleware may attach; None is a key never set. */
  datatype Context = Context(apiKeyId: Option<int>, userId: Option<string>, userEmail: Option<string>,
                             userRole: Option<string>, authType: Option<AuthType>)

  const EmptyContext: Context := Context(None, None, None, None, None)

  /** Request headers by canonical name, each with its first value. */
  type Headers = map<string, string>

  /** http.Header.Get: the value, or "" when the header is absent. */
  function Header(h: Headers, name: string): string {
    if name in h then h[name] else ""
  }

  datatype Request = Request(path: string, headers: Headers, ctx: Context)

  /** The middleware's configuration; a nil JWT manager is None. */
  datatype Middleware = Middleware(config: Config, jwtManager: Option<Manager>)

  /** Whether the next handler runs, and with which context, or the 401 written instead. */
  datatype Decision = Proceed(ctx: Context) | Reject(status: int, body: string)

  // ---------------------------------------------------------------------------
  // API keys
  // ---------------------------------------------------------------------------

  /** secureCompare: subtle.ConstantTimeCompare is 1 exactly for equal lengths and equal
      bytes. Its timing is not modelled. */
  function SecureCompare(a: string, b: string): (r: bool)
    ensures r <==> a == b
  {
    |a| == |b| && forall i :: 0 <= i < |a| ==> a[i] == b[i]
  }

  /** The smallest index holding `key`, or -1. */
  function FirstIndex(keys: seq<string>, key: string): (r: int)
    ensures -1 <= r < |keys|
    ensures r == -1 <==> key !in keys
    ensures r >= 0 ==> keys[r] == key && forall j :: 0 <= j < r ==> keys[j] != key
  {
    if keys == [] then -1
    else if keys[0] == key then 0
    else
      var r := FirstIndex(keys[1..], key);
      if r == -1 then -1 else r + 1
  }

  /** findValidKeyIndex: the configured keys scanned in order, the first match returned. */
  method FindValidKeyIndex(cfg: Config, providedKey: string) returns (index: int)
    ensures index == FirstIndex(cfg.apiKeys, providedKey)
  {
    for i := 0 to |cfg.apiKeys|
      invariant forall j :: 0 <= j < i ==> cfg.apiKeys[j] != providedKey
    {
      if SecureCompare(providedKey, cfg.apiKeys[i]) {
        return i;
      }
    }
    return -1;
  }

  /** authenticateAPIKey: no keys configured refuses everything; otherwise the index of the
      first matching key and the auth type are attached. None is the `false` result. */
  function AuthenticateAPIKey(cfg: Config, ctx: Context, apiKey: string): (r: Option<Context>)
    ensures r.Some? <==> apiKey in cfg.apiKeys
    ensures r.Some? ==> r.value == ctx.(apiKeyId := Some(FirstIndex(cfg.apiKeys, apiKey)), authType := Some(APIKeyAuth))
  {
    if !HasAPIKeys(cfg) then None
    else
      var keyIndex := FirstIndex(cfg.apiKeys, apiKey);
      if keyIndex == -1 then None
      else Some(ctx.(apiKeyId := Some(keyIndex)).(authType := Some(APIKeyAuth)))
  }

  // ---------------------------------------------------------------------------
  // Bearer tokens
  // ---------------------------------------------------------------------------

  /** authenticateJWT: a nil manager refuses; otherwise the token must pass
      ValidateAccessToken, and its user id, email and role and the auth type are attached. */
  function AuthenticateJWT(codec: Codec, jwtManager: Option<Manager>, ctx: Context, token: string, now: int)
    : (r: Option<Context>)
    ensures jwtManager.None? ==> r.None?
    ensures jwtManager.Some? ==>
      (r.Some? <==> ValidateAccessToken(codec, jwtManager.value, token, now).Ok?)
    ensures r.Some? ==>
      var c := ValidateAccessToken(codec, jwtManager.value, token, now).value;
      r.value == ctx.(userId := Some(c.userId), userEmail := Some(c.email), userRole := Some(c.role),
                      authType := Some(JWTAuth))
  {
    match jwtManager
    case None => None
    case Some(m) =>
      match ValidateAccessToken(codec, m, token, now)
      case Err(_) => None
      case Ok(claims) =>
        Some(ctx.(userId := Some(claims.userId))
                .(userEmail := Some(claims.email))
                .(userRole := Some(claims.role))
                .(authType := Some(JWTAuth)))
  }

  // ---------------------------------------------------------------------------
  // The 401 body
  // ---------------------------------------------------------------------------

  /** escapeJSON: every backslash doubled first, then every double quote prefixed with a
      backslash. */
  function EscapeJSON(s: string): string {
    ReplaceAll(ReplaceAll(s, '\\', "\\\\"), '"', "\\\"")
  }

  /** The escape of one character. */
  function EscapeChar(c: char): string {
    if c == '\\' then "\\\\" else if c == '"' then "\\\"" else [c]
  }

  /** Escaping character by character. */
  function EscapeEach(s: string): string {
    if s == [] then "" else EscapeChar(s[0]) + EscapeEach(s[1..])
  }

  /** The JSON reading of `\\` and `\"`: a backslash stands for the character after it. */
  function Unescape(t: string): (r: string)
    decreases |t|
  {
    if t == [] then ""
    else if t[0] == '\\' && |t| >= 2 then [t[1]] + Unescape(t[2..])
    else [t[0]] + Unescape(t[1..])
  }

  lemma {:induction false} ReplaceAllAppend(a: string, b: string, pat: char, rep: string)
    ensures ReplaceAll(a + b, pat, rep) == ReplaceAll(a, pat, rep) + ReplaceAll(b, pat, rep)
  {
    if a != [] {
      assert (a + b)[1..] == a[1..] + b;
      ReplaceAllAppend(a[1..], b, pat, rep);
    } else {
      assert a + b == b;
    }
  }

  /** The two passes of escapeJSON escape each character on its own: the quotes the second
      pass adds are never doubled, and the backslashes the first pass adds are not quotes. */
  lemma {:induction false} EscapeJSONEach(s: string)
    ensures EscapeJSON(s) == EscapeEach(s)
  {
    if s != [] {
      EscapeJSONEach(s[1..]);
      var head := [s[0]];
      assert s == head + s[1..];
      ReplaceAllAppend(head, s[1..], '\\', "\\\\");
      var once := ReplaceAll(head, '\\', "\\\\");
      ReplaceAllAppend(once, ReplaceAll(s[1..], '\\', "\\\\"), '"', "\\\"");
      assert ReplaceAll(once, '"', "\\\"") == EscapeChar(s[0]) by {
        if s[0] == '\\' {
          assert once == "\\\\";
          assert once[1..] == "\\";
          assert once[1..][1..] == "";
        } else if s[0] == '"' {
          assert once == "\"";
          assert once[1..] == "";
        } else {
          assert once == [s[0]];
          assert once[1..] == "";
        }
      }
    }
  }

  lemma {:induction false} UnescapeEach(s: string)
    ensures Unescape(EscapeEach(s)) == s
  {
    if s != [] {
      UnescapeEach(s[1..]);
      var t := EscapeEach(s);
      assert t == EscapeChar(s[0]) + EscapeEach(s[1..]);
      if s[0] == '\\' || s[0] == '"' {
        assert t[0] == '\\' && t[1] == s[0] && t[2..] == EscapeEach(s[1..]);
      } else {
        assert t[0] == s[0] && t[1..] == EscapeEach(s[1..]);
      }
    }
  }

  /** Escaping loses nothing: reading the escaped text as JSON gives the message back. */
  lemma EscapeRoundTrip(s: string)
    ensures Unescape(EscapeJSON(s)) == s
  {
    EscapeJSONEach(s);
    UnescapeEach(s);
  }

  /** A string with neither a backslash nor a double quote is left as it is. */
  lemma EscapeIdentity(s: string)
    requires '\\' !in s && '"' !in s
    ensures EscapeJSON(s) == s
  {
  }

  const UnauthorizedPrefix: string := "{\"error\":\"unauthorized\",\"message\":\""
  const UnauthorizedSuffix: string := "\"}"

  /** The body writeUnauthorizedResponse writes with status 401. */
  function UnauthorizedBody(message: string): (body: string)
    ensures |body| >= |UnauthorizedPrefix| + |UnauthorizedSuffix|
    ensures body[..|UnauthorizedPrefix|] == UnauthorizedPrefix
    ensures body[|body| - |UnauthorizedSuffix|..] == UnauthorizedSuffix
    ensures Unescape(body[|UnauthorizedPrefix|..|body| - |UnauthorizedSuffix|]) == message
  {
    var e := EscapeJSON(message);
    var body := UnauthorizedPrefix + e + UnauthorizedSuffix;
    assert body[|UnauthorizedPrefix|..|body| - |UnauthorizedSuffix|] == e;
    EscapeRoundTrip(message);
    body
  }

  const MsgInvalidToken: string := "invalid or expired token"
  const MsgInvalidCredentials: string := "invalid credentials"
  const MsgAuthRequired: string := "authentication required"

  /** A message with nothing to escape appears in the body as it is. */
  lemma PlainBody(message: string)
    requires '\\' !in message && '"' !in message
    ensures UnauthorizedBody(message) == "{\"error\":\"unauthorized\",\"message\":\"" + message + "\"}"
  {
    EscapeIdentity(message);
  }

  /** The three messages the middleware uses need no escaping. */
  lemma FixedMessagesPlain()
    ensures forall m :: m in {MsgInvalidToken, MsgInvalidCredentials, MsgAuthRequired} ==> '\\' !in m && '"' !in m
  {
  }

  // ---------------------------------------------------------------------------
  // Authenticate
  // ---------------------------------------------------------------------------

  /** Authenticate, for one request at instant `now`. */
  function Authenticate(mw: Middleware, codec: Codec, req: Request, now: int): (d: Decision)
    ensures d.Reject? ==> d.status == StatusUnauthorized
    ensures d.Reject? ==> d.body in {UnauthorizedBody(MsgInvalidToken), UnauthorizedBody(MsgInvalidCredentials),
                                     UnauthorizedBody(MsgAuthRequired)}
  {
    if req.path == HealthPath then Proceed(req.ctx)
    else
      var authHeader := Header(req.headers, AuthorizationHeader);
      if HasPrefix(authHeader, BearerPrefix) then
        match AuthenticateJWT(codec, mw.jwtManager, req.ctx, TrimPrefix(authHeader, BearerPrefix), now)
        case Some(ctx) => Proceed(ctx)
        case None => Reject(StatusUnauthorized, UnauthorizedBody(MsgInvalidToken))
      else
        var apiKey := Header(req.headers, APIKeyHeader);
        if apiKey != "" then
          match AuthenticateAPIKey(mw.config, req.ctx, apiKey)
          case Some(ctx) => Proceed(ctx)
          case None => Reject(StatusUnauthorized, UnauthorizedBody(MsgInvalidCredentials))
        else Reject(StatusUnauthorized, UnauthorizedBody(MsgAuthRequired))
  }

  /** The health path proceeds untouched whatever the headers. */
  lemma HealthBypass(mw: Middleware, codec: Codec, req: Request, now: int)
    requires req.path == HealthPath
    ensures Authenticate(mw, codec, req, now) == Proceed(req.ctx)
  {
  }

  /** Once the Authorization header starts with "Bearer " (case-sensitively), the decision is
      the token's alone: a valid access token proceeds with its user's identity and auth type
      "jwt", anything else is "invalid or expired token", and X-API-Key is never consulted. */
  lemma BearerDecides(mw: Middleware, codec: Codec, req: Request, now: int, otherKey: string)
    requires req.path != HealthPath
    requires HasPrefix(Header(req.headers, AuthorizationHeader), BearerPrefix)
    ensures var token := TrimPrefix(Header(req.headers, AuthorizationHeader), BearerPrefix);
      Authenticate(mw, codec, req, now) ==
        match AuthenticateJWT(codec, mw.jwtManager, req.ctx, token, now)
        case Some(ctx) => Proceed(ctx)
        case None => Reject(StatusUnauthorized, UnauthorizedBody(MsgInvalidToken))
    ensures Authenticate(mw, codec, req.(headers := req.headers[APIKeyHeader := otherKey]), now) ==
            Authenticate(mw, codec, req, now)
  {
    var req2 := req.(headers := req.headers[APIKeyHeader := otherKey]);
    assert Header(req2.headers, AuthorizationHeader) == Header(req.headers, AuthorizationHeader);
  }

  /** A valid access token proceeds with auth type "jwt" and the token's user. */
  lemma BearerAccepted(mw: Middleware, codec: Codec, req: Request, now: int)
    requires req.path != HealthPath
    requires HasPrefix(Header(req.headers, AuthorizationHeader), BearerPrefix)
    requires mw.jwtManager.Some?
    requires ValidateAccessToken(codec, mw.jwtManager.value,
                                 TrimPrefix(Header(req.headers, AuthorizationHeader), BearerPrefix), now).Ok?
    ensures var c := ValidateAccessToken(codec, mw.jwtManager.value,
                                         TrimPrefix(Header(req.headers, AuthorizationHeader), BearerPrefix), now).value;
      var d := Authenticate(mw, codec, req, now);
      d.Proceed? && d.ctx.userId == Some(c.userId) && d.ctx.userEmail == Some(c.email) &&
      d.ctx.userRole == Some(c.role) && d.ctx.authType == Some(JWTAuth) && d.ctx.apiKeyId == req.ctx.apiKeyId
  {
  }

  /** A refresh token sent as a Bearer token is refused, as is any Bearer token when the
      middleware has no JWT manager. */
  lemma BearerRefreshRejected(mw: Middleware, codec: Codec, req: Request, now: int,
                              userId: string, email: string, role: string, issued: int)
    requires ValidCodec(codec)
    requires req.path != HealthPath
    requires mw.jwtManager.Some? ==>
      issued <= now < NumericDate(issued + mw.jwtManager.value.refreshTokenExpiry) * NanosPerSecond
    requires mw.jwtManager.Some? ==>
      Header(req.headers, AuthorizationHeader) ==
        BearerPrefix + GenerateRefreshToken(codec, mw.jwtManager.value, userId, email, role, issued)
    requires mw.jwtManager.None? ==> HasPrefix(Header(req.headers, AuthorizationHeader), BearerPrefix)
    ensures Authenticate(mw, codec, req, now) == Reject(StatusUnauthorized, UnauthorizedBody(MsgInvalidToken))
  {
    if mw.jwtManager.Some? {
      var m := mw.jwtManager.value;
      var token := GenerateRefreshToken(codec, m, userId, email, role, issued);
      var h := Header(req.headers, AuthorizationHeader);
      assert h[..|BearerPrefix|] == BearerPrefix;
      assert h[|BearerPrefix|..] == token;
      RefreshIsNotAccess(codec, m, userId, email, role, issued, now);
      assert AuthenticateJWT(codec, mw.jwtManager, req.ctx, token, now).None?;
    }
  }

  /** Without a Bearer prefix, a non-empty X-API-Key proceeds exactly when it is a configured
      key, carrying the index of its first occurrence and auth type "api_key"; otherwise it is
      "invalid credentials". */
  lemma APIKeyDecides(mw: Middleware, codec: Codec, req: Request, now: int)
    requires req.path != HealthPath
    requires !HasPrefix(Header(req.headers, AuthorizationHeader), BearerPrefix)
    requires Header(req.headers, APIKeyHeader) != ""
    ensures var key := Header(req.headers, APIKeyHeader);
      var d := Authenticate(mw, codec, req, now);
      (d.Proceed? <==> key in mw.config.apiKeys) &&
      (d.Proceed? ==> d.ctx == req.ctx.(apiKeyId := Some(FirstIndex(mw.config.apiKeys, key)), authType := Some(APIKeyAuth))) &&
      (d.Reject? ==> d.body == UnauthorizedBody(MsgInvalidCredentials))
  {
    var r := AuthenticateAPIKey(mw.config, req.ctx, Header(req.headers, APIKeyHeader));
    assert Authenticate(mw, codec, req, now) ==
      if r.Some? then Proceed(r.value) else Reject(StatusUnauthorized, UnauthorizedBody(MsgInvalidCredentials));
  }

  /** With no keys configured, no API key gets in: it fails closed. */
  lemma NoKeysFailClosed(mw: Middleware, codec: Codec, req: Request, now: int)
    requires mw.config.apiKeys == []
    requires req.path != HealthPath
    requires !HasPrefix(Header(req.headers, AuthorizationHeader), BearerPrefix)
    ensures Authenticate(mw, codec, req, now).Reject?
  {
  }

  /** With neither a Bearer token nor an API key the answer is "authentication required". */
  lemma NothingPresented(mw: Middleware, codec: Codec, req: Request, now: int)
    requires req.path != HealthPath
    requires !HasPrefix(Header(req.headers, AuthorizationHeader), BearerPrefix)
    requires Header(req.headers, APIKeyHeader) == ""
    ensures Authenticate(mw, codec, req, now) == Reject(StatusUnauthorized, UnauthorizedBody(MsgAuthRequired))
  {
  }

  /** The next handler runs exactly on the three success paths. */
  lemma ProceedsIff(mw: Middleware, codec: Codec, req: Request, now: int)
    ensures var auth := Header(req.headers, AuthorizationHeader);
      var key := Header(req.headers, APIKeyHeader);
      Authenticate(mw, codec, req, now).Proceed? <==>
        req.path == HealthPath ||
        (HasPrefix(auth, BearerPrefix) && mw.jwtManager.Some? &&
         ValidateAccessToken(codec, mw.jwtManager.value, TrimPrefix(auth, BearerPrefix), now).Ok?) ||
        (!HasPrefix(auth, BearerPrefix) && key != "" && key in mw.config.apiKeys)
  {
    var auth := Header(req.headers, AuthorizationHeader);
    if req.path != HealthPath && HasPrefix(auth, BearerPrefix) {
      var r := AuthenticateJWT(codec, mw.jwtManager, req.ctx, TrimPrefix(auth, BearerPrefix), now);
      assert Authenticate(mw, codec, req, now).Proceed? <==> r.Some?;
    }
  }

  // ---------------------------------------------------------------------------
  // Context getters
  // ---------------------------------------------------------------------------

  /** GetAPIKeyID: the index and true, or 0 and false when none was attached. */
  function GetAPIKeyID(ctx: Context): (r: (int, bool))
    ensures r.1 <==> ctx.apiKeyId.Some?
    ensures r.1 ==> r.0 == ctx.apiKeyId.value
    ensures !r.1 ==> r.0 == 0
  {
    match ctx.apiKeyId
    case Some(id) => (id, true)
    case None => (0, false)
  }

  /** A getter of a string value: the value and true, or "" and false. */
  function GetString(v: Option<string>): (r: (string, bool))
    ensures r.1 <==> v.Some?
    ensures r.1 ==> r.0 == v.value
    ensures !r.1 ==> r.0 == ""
  {
    match v
    case Some(s) => (s, true)
    case None => ("", false)
  }

  function GetUserID(ctx: Context): (string, bool) {
    GetString(ctx.userId)
  }

  function GetUserEmail(ctx: Context): (string, bool) {
    GetString(ctx.userEmail)
  }

  function GetUserRole(ctx: Context): (string, bool) {
    GetString(ctx.userRole)
  }

  /** GetAuthType: the type and true, or the empty AuthType and false. */
  function GetAuthType(ctx: Context): (r: (string, bool))
    ensures r.1 <==> ctx.authType.Some?
    ensures r.1 ==> r.0 == AuthTypeName(ctx.authType.value)
    ensures !r.1 ==> r.0 == ""
  {
    match ctx.authType
    case Some(t) => (AuthTypeName(t), true)
    case None => ("", false)
  }

  function IsJWTAuth(ctx: Context): (b: bool)
    ensures b <==> ctx.authType == Some(JWTAuth)
  {
    var (t, ok) := GetAuthType(ctx);
    ok && t == AuthTypeName(JWTAuth)
  }

  function IsAPIKeyAuth(ctx: Context): (b: bool)
    ensures b <==> ctx.authType == Some(APIKeyAuth)
  {
    var (t, ok) := GetAuthType(ctx);
    ok && t == AuthTypeName(APIKeyAuth)
  }

  /** On a context the middleware has not touched every getter reports nothing. */
  lemma EmptyContextGetters()
    ensures GetAPIKeyID(EmptyContext) == (0, false)
    ensures GetUserID(EmptyContext) == ("", false) && GetUserEmail(EmptyContext) == ("", false)
    ensures GetUserRole(EmptyContext) == ("", false) && GetAuthType(EmptyContext) == ("", false)
    ensures !IsJWTAuth(EmptyContext) && !IsAPIKeyAuth(EmptyContext)
  {
  }

  /** A request let through by the middleware is authenticated by exactly one means, unless
      it is the health path. */
  lemma ExactlyOneMeans(mw: Middleware, codec: Codec, req: Request, now: int)
    requires req.path != HealthPath
    requires req.ctx == EmptyContext
    requires Authenticate(mw, codec, req, now).Proceed?
    ensures var ctx := Authenticate(mw, codec, req, now).ctx;
      (IsJWTAuth(ctx) && GetUserID(ctx).1 && !GetAPIKeyID(ctx).1) ||
      (IsAPIKeyAuth(ctx) && GetAPIKeyID(ctx).1 && !GetUserID(ctx).1)
  {
  }
}
