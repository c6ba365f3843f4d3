/** Access and refresh tokens (pkg/jwt/jwt.go): the claims a token carries, how they are
    issued, and how a presented token is classified. HS256 signing and the compact JWS
    parsing belong to the golang-jwt library; here they are an abstract `Codec` whose
    behaviour is pinned down only by `ValidCodec`. */
module Jwt {
  import opened Primitive
  import opened Errors

  const TokenTypeAccess: string := "access"
  const TokenTypeRefresh: string := "refresh"

  /** The claims: the four private ones and the registered ones of RFC 7519 section 4.1
      that the manager sets. NumericDates are whole seconds since the Unix epoch. */
  datatype Claims = Claims(
    userId: string,
    email: string,
    role: string,
    tokenType: string,
    issuer: string,             // "iss", section 4.1.1
    subject: string,            // "sub", section 4.1.2
    expiresAt: Option<int>,     // "exp", section 4.1.4
    notBefore: Option<int>,     // "nbf", section 4.1.5
    issuedAt: Option<int>)      // "iat", section 4.1.6

  /** The "alg" of a token's header. */
  datatype SigningMethod = HS256 | HS384 | HS512 | OtherMethod(name: string)

  predicate IsHMAC(m: SigningMethod) {
    m.HS256? || m.HS384? || m.HS512?
  }

  /** A token's header method and claims, as the library decodes them. */
  datatype Decoded = Decoded(alg: SigningMethod, claims: Claims)

  /** The library: HS256 signing, decoding, signature verification under a key, and the
      two time checks it applies when validating claims (`now` in nanoseconds). */
  datatype Codec = Codec(
    sign: (Claims, string) -> string,
    decode: string -> Option<Decoded>,
    verify: (string, string) -> bool,
    expired: (Option<int>, int) -> bool,
    notYetValid: (Option<int>, int) -> bool)

  /** What the model relies on: a signed token decodes to HS256 with the same claims and
      verifies under the signing key and no other; an "exp" is not yet reached strictly
      before it and is passed strictly after it, and a missing one never expires; an "nbf"
      is satisfied from that second on, and a missing one always is. */
  ghost predicate ValidCodec(c: Codec) {
    (forall cl, k :: c.decode(c.sign(cl, k)) == Some(Decoded(HS256, cl))) &&
    (forall cl, k, k2 :: c.verify(c.sign(cl, k), k2) <==> k2 == k) &&
    (forall e, t :: t < e * NanosPerSecond ==> !c.expired(Some(e), t)) &&
    (forall e, t :: t > e * NanosPerSecond ==> c.expired(Some(e), t)) &&
    (forall t :: !c.expired(None, t)) &&
    (forall n, t :: t >= n * NanosPerSecond ==> !c.notYetValid(Some(n), t)) &&
    (forall t :: !c.notYetValid(None, t))
  }

  /** The manager's settings, fixed by NewManager; lifetimes are Go Durations in
      nanoseconds. */
  datatype Manager = Manager(secretKey: string, accessTokenExpiry: int, refreshTokenExpiry: int, issuer: string)

  function NewManager(secretKey: string, accessExpiry: int, refreshExpiry: int, issuer: string): (m: Manager)
    ensures m.secretKey == secretKey && m.issuer == issuer
    ensures m.accessTokenExpiry == accessExpiry && m.refreshTokenExpiry == refreshExpiry
  {
    Manager(secretKey, accessExpiry, refreshExpiry, issuer)
  }

  /** jwt.NewNumericDate: the instant truncated to whole seconds. */
  function NumericDate(now: int): (s: int)
    ensures s * NanosPerSecond <= now < (s + 1) * NanosPerSecond
  {
    now / NanosPerSecond
  }

  /** The claims generateToken builds at instant `now`. */
  function IssuedClaims(m: Manager, userId: string, email: string, role: string, tokenType: string,
                        expiry: int, now: int): (c: Claims)
    ensures c.userId == userId && c.email == email && c.role == role && c.tokenType == tokenType
    ensures c.issuedAt == c.notBefore == Some(NumericDate(now))
    ensures c.expiresAt == Some(NumericDate(now + expiry))
    ensures c.subject == userId && c.issuer == m.issuer
  {
    Claims(userId, email, role, tokenType, m.issuer, userId,
           Some(NumericDate(now + expiry)), Some(NumericDate(now)), Some(NumericDate(now)))
  }

  /** generateToken: the issued claims signed with HS256 under the manager's key. Signing
      with an HMAC key never fails, so the error result is left out. */
  function GenerateToken(codec: Codec, m: Manager, userId: string, email: string, role: string,
                         tokenType: string, expiry: int, now: int): (token: string)
    ensures ValidCodec(codec) ==>
      codec.decode(token) == Some(Decoded(HS256, IssuedClaims(m, userId, email, role, tokenType, expiry, now)))
  {
    codec.sign(IssuedClaims(m, userId, email, role, tokenType, expiry, now), m.secretKey)
  }

  function GenerateAccessToken(codec: Codec, m: Manager, userId: string, email: string, role: string,
                               now: int): (token: string)
    ensures ValidCodec(codec) ==>
      codec.decode(token) == Some(Decoded(HS256, IssuedClaims(m, userId, email, role, TokenTypeAccess, m.accessTokenExpiry, now)))
  {
    GenerateToken(codec, m, userId, email, role, TokenTypeAccess, m.accessTokenExpiry, now)
  }

  function GenerateRefreshToken(codec: Codec, m: Manager, userId: string, email: string, role: string,
                                now: int): (token: string)
    ensures ValidCodec(codec) ==>
      codec.decode(token) == Some(Decoded(HS256, IssuedClaims(m, userId, email, role, TokenTypeRefresh, m.refreshTokenExpiry, now)))
  {
    GenerateToken(codec, m, userId, email, role, TokenTypeRefresh, m.refreshTokenExpiry, now)
  }

  /** The two kinds of token carry the same claims but for the type and the expiry. */
  lemma AccessRefreshDiffer(m: Manager, userId: string, email: string, role: string, now: int)
    ensures IssuedClaims(m, userId, email, role, TokenTypeAccess, m.accessTokenExpiry, now) ==
            IssuedClaims(m, userId, email, role, TokenTypeRefresh, m.refreshTokenExpiry, now)
              .(tokenType := TokenTypeAccess, expiresAt := Some(NumericDate(now + m.accessTokenExpiry)))
  {
  }

  /** ValidateToken: an undecodable token, a non-HMAC method (the key function's refusal), a
      bad signature, and a token not valid yet are all ErrInvalidToken; an expired one is
      ErrExpiredToken. The library checks the signature before the claims, and reports
      expiry even alongside other claim failures. */
  function ValidateToken(codec: Codec, m: Manager, token: string, now: int): (r: Result<Claims>)
    ensures r.Err? ==> r.error == InvalidToken || r.error == ExpiredToken
    ensures r == Err(ExpiredToken) <==>
      codec.decode(token).Some? && IsHMAC(codec.decode(token).value.alg) &&
      codec.verify(token, m.secretKey) && codec.expired(codec.decode(token).value.claims.expiresAt, now)
    ensures r.Ok? <==>
      codec.decode(token).Some? && IsHMAC(codec.decode(token).value.alg) &&
      codec.verify(token, m.secretKey) &&
      !codec.expired(codec.decode(token).value.claims.expiresAt, now) &&
      !codec.notYetValid(codec.decode(token).value.claims.notBefore, now)
    ensures r.Ok? ==> r.value == codec.decode(token).value.claims
  {
    match codec.decode(token)
    case None => Err(InvalidToken)
    case Some(d) =>
      if !IsHMAC(d.alg) then Err(InvalidToken)
      else if !codec.verify(token, m.secretKey) then Err(InvalidToken)
      else if codec.expired(d.claims.expiresAt, now) then Err(ExpiredToken)
      else if codec.notYetValid(d.claims.notBefore, now) then Err(InvalidToken)
      else Ok(d.claims)
  }

  /** ValidateToken, then the type must be "access"; ValidateToken's errors pass through. */
  function ValidateAccessToken(codec: Codec, m: Manager, token: string, now: int): (r: Result<Claims>)
    ensures ValidateToken(codec, m, token, now).Err? ==> r == ValidateToken(codec, m, token, now)
    ensures r.Ok? <==> ValidateToken(codec, m, token, now).Ok? && ValidateToken(codec, m, token, now).value.tokenType == TokenTypeAccess
    ensures r.Ok? ==> r == ValidateToken(codec, m, token, now)
    ensures ValidateToken(codec, m, token, now).Ok? && !r.Ok? ==> r == Err(InvalidTokenType)
  {
    match ValidateToken(codec, m, token, now)
    case Err(e) => Err(e)
    case Ok(c) => if c.tokenType != TokenTypeAccess then Err(InvalidTokenType) else Ok(c)
  }

  /** The same with type "refresh". */
  function ValidateRefreshToken(codec: Codec, m: Manager, token: string, now: int): (r: Result<Claims>)
    ensures ValidateToken(codec, m, token, now).Err? ==> r == ValidateToken(codec, m, token, now)
    ensures r.Ok? <==> ValidateToken(codec, m, token, now).Ok? && ValidateToken(codec, m, token, now).value.tokenType == TokenTypeRefresh
    ensures r.Ok? ==> r == ValidateToken(codec, m, token, now)
    ensures ValidateToken(codec, m, token, now).Ok? && !r.Ok? ==> r == Err(InvalidTokenType)
  {
    match ValidateToken(codec, m, token, now)
    case Err(e) => Err(e)
    case Ok(c) => if c.tokenType != TokenTypeRefresh then Err(InvalidTokenType) else Ok(c)
  }

  /** No token is accepted both as an access token and as a refresh token. */
  lemma NoTokenIsBoth(codec: Codec, m: Manager, token: string, now: int)
    ensures !(ValidateAccessToken(codec, m, token, now).Ok? && ValidateRefreshToken(codec, m, token, now).Ok?)
  {
  }

  /** Round trip: a token validated with the issuing manager, from the instant it was issued
      until the second its "exp" names, yields the claims it was issued with. */
  lemma ValidateGenerated(codec: Codec, m: Manager, userId: string, email: string, role: string,
                          tokenType: string, expiry: int, issued: int, now: int)
    requires ValidCodec(codec)
    requires issued <= now < NumericDate(issued + expiry) * NanosPerSecond
    ensures ValidateToken(codec, m, GenerateToken(codec, m, userId, email, role, tokenType, expiry, issued), now) ==
            Ok(IssuedClaims(m, userId, email, role, tokenType, expiry, issued))
  {
    var claims := IssuedClaims(m, userId, email, role, tokenType, expiry, issued);
    var token := GenerateToken(codec, m, userId, email, role, tokenType, expiry, issued);
    assert codec.verify(codec.sign(claims, m.secretKey), m.secretKey);
    assert !codec.expired(Some(NumericDate(issued + expiry)), now);
    assert NumericDate(issued) * NanosPerSecond <= now;
    assert !codec.notYetValid(Some(NumericDate(issued)), now);
  }

  /** A fresh access token is accepted by ValidateAccessToken with the user's id, email and
      role. */
  lemma AccessRoundTrip(codec: Codec, m: Manager, userId: string, email: string, role: string,
                        issued: int, now: int)
    requires ValidCodec(codec)
    requires issued <= now < NumericDate(issued + m.accessTokenExpiry) * NanosPerSecond
    ensures var r := ValidateAccessToken(codec, m, GenerateAccessToken(codec, m, userId, email, role, issued), now);
      r.Ok? && r.value.userId == userId && r.value.email == email && r.value.role == role
  {
    ValidateGenerated(codec, m, userId, email, role, TokenTypeAccess, m.accessTokenExpiry, issued, now);
  }

  /** A refresh token is never accepted as an access token: while it is valid the type check
      refuses it. */
  lemma RefreshIsNotAccess(codec: Codec, m: Manager, userId: string, email: string, role: string,
                           issued: int, now: int)
    requires ValidCodec(codec)
    requires issued <= now < NumericDate(issued + m.refreshTokenExpiry) * NanosPerSecond
    ensures ValidateAccessToken(codec, m, GenerateRefreshToken(codec, m, userId, email, role, issued), now) ==
            Err(InvalidTokenType)
  {
    ValidateGenerated(codec, m, userId, email, role, TokenTypeRefresh, m.refreshTokenExpiry, issued, now);
  }

  /** A token signed by a manager with another key is ErrInvalidToken, whatever its claims and
      however fresh. */
  lemma WrongKeyRejected(codec: Codec, m: Manager, other: Manager, userId: string, email: string,
                         role: string, tokenType: string, expiry: int, issued: int, now: int)
    requires ValidCodec(codec)
    requires other.secretKey != m.secretKey
    ensures ValidateToken(codec, other, GenerateToken(codec, m, userId, email, role, tokenType, expiry, issued), now) ==
            Err(InvalidToken)
  {
    var claims := IssuedClaims(m, userId, email, role, tokenType, expiry, issued);
    assert !codec.verify(codec.sign(claims, m.secretKey), other.secretKey);
  }

  /** After the second its "exp" names, a genuine token of the manager is ErrExpiredToken. */
  lemma ExpiredRejected(codec: Codec, m: Manager, userId: string, email: string, role: string,
                        tokenType: string, expiry: int, issued: int, now: int)
    requires ValidCodec(codec)
    requires now > NumericDate(issued + expiry) * NanosPerSecond
    ensures ValidateToken(codec, m, GenerateToken(codec, m, userId, email, role, tokenType, expiry, issued), now) ==
            Err(ExpiredToken)
  {
    var claims := IssuedClaims(m, userId, email, role, tokenType, expiry, issued);
    assert codec.verify(codec.sign(claims, m.secretKey), m.secretKey);
    assert codec.expired(Some(NumericDate(issued + expiry)), now);
  }

  /** GetAccessTokenExpiry: `int64(d.Seconds())`, the lifetime in seconds truncated toward
      zero. The float64 intermediate of Seconds() is not modelled: for lifetimes of 2^24
      seconds or more ending within a few nanoseconds of a whole second it rounds up. */
  function GetAccessTokenExpiry(m: Manager): (s: int)
    ensures m.accessTokenExpiry >= 0 ==>
      s >= 0 && s * NanosPerSecond <= m.accessTokenExpiry < (s + 1) * NanosPerSecond
    ensures m.accessTokenExpiry < 0 ==>
      s <= 0 && (s - 1) * NanosPerSecond < m.accessTokenExpiry <= s * NanosPerSecond
  {
    GoDiv(m.accessTokenExpiry, NanosPerSecond)
  }
}
