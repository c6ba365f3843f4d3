/** Users, roles, password hashing and the account request types (internal/domain/user.go). */
module Users {
  import opened Primitive
  import opened Errors

  const RoleUser: string := "user"
  const RoleAdmin: string := "admin"

  predicate IsValidRole(role: string) {
    role == RoleUser || role == RoleAdmin
  }

  // ---------------------------------------------------------------------------
  // bcrypt, as an abstract one-way hash
  // ---------------------------------------------------------------------------

  /** `generate(p, salt)` is bcrypt.GenerateFromPassword with the random salt made a
      parameter; `matches(hash, p)` is CompareHashAndPassword succeeding. */
  datatype Hasher = Hasher(generate: (string, nat) -> Option<string>, matches: (string, string) -> bool)

  const BcryptKeyBytes: nat := 72

  /** The Blowfish key bcrypt derives from a password: the password followed by a NUL byte,
      repeated cyclically and cut at 72 bytes. Passwords with the same key stream are
      indistinguishable to CompareHashAndPassword. */
  function KeyStream(p: string): (k: seq<char>)
    ensures |k| == BcryptKeyBytes
  {
    var key := p + ['\0'];
    seq(BcryptKeyBytes, i requires 0 <= i < BcryptKeyBytes => key[i % |key|])
  }

  lemma ModBelow(i: int, n: int)
    requires 0 <= i < n
    ensures i % n == i
  {
  }

  /** The key stream starts with the password itself, then the NUL terminator. */
  lemma KeyStreamPrefix(p: string)
    ensures forall i :: 0 <= i < |p| && i < BcryptKeyBytes ==> KeyStream(p)[i] == p[i]
    ensures |p| < BcryptKeyBytes ==> KeyStream(p)[|p|] == '\0'
  {
    var key := p + ['\0'];
    forall i | 0 <= i <= |p| && i < BcryptKeyBytes
      ensures KeyStream(p)[i] == key[i]
    {
      ModBelow(i, |key|);
    }
  }

  /** A hash accepts exactly the passwords whose key stream is that of `password`. */
  ghost predicate AcceptsExactly(h: Hasher, hash: string, password: string) {
    forall q :: h.matches(hash, q) <==> KeyStream(q) == KeyStream(password)
  }

  /** What the model relies on: hashing fails exactly on passwords over 72 bytes, and a hash
      matches exactly the passwords with the key stream of the one it was made from (up to
      collisions of the hash, which are not modelled). */
  ghost predicate ValidHasher(h: Hasher) {
    forall p, salt ::
      (h.generate(p, salt).None? <==> |p| > BcryptKeyBytes) &&
      (h.generate(p, salt).Some? ==> AcceptsExactly(h, h.generate(p, salt).value, p))
  }

  /** bcrypt reads only the first 72 bytes: the hash of a 72-byte password also accepts every
      extension of it. */
  lemma ExtensionStillMatches(h: Hasher, salt: nat, p: string, x: string)
    requires ValidHasher(h) && |p| == BcryptKeyBytes
    ensures h.generate(p, salt).Some? && h.matches(h.generate(p, salt).value, p + x)
  {
    KeyStreamPrefix(p);
    KeyStreamPrefix(p + x);
    assert KeyStream(p + x) == KeyStream(p);
  }

  /** Among NUL-free passwords of at most 72 bytes, the key stream determines the password. */
  lemma KeyStreamInjective(p: string, q: string)
    requires |p| <= BcryptKeyBytes && |q| <= BcryptKeyBytes
    requires '\0' !in p && '\0' !in q
    requires KeyStream(p) == KeyStream(q)
    ensures p == q
  {
    KeyStreamPrefix(p);
    KeyStreamPrefix(q);
    if |p| == |q| {
      assert forall i :: 0 <= i < |p| ==> p[i] == KeyStream(p)[i] == q[i];
    }
  }

  /** So for such passwords a hash accepts its own password and no other. */
  lemma DistinctPasswordsRejected(h: Hasher, salt: nat, p: string, q: string)
    requires ValidHasher(h)
    requires |p| <= BcryptKeyBytes && |q| <= BcryptKeyBytes && '\0' !in p && '\0' !in q && p != q
    ensures h.generate(p, salt).Some? && !h.matches(h.generate(p, salt).value, q)
  {
    if KeyStream(q) == KeyStream(p) {
      KeyStreamInjective(p, q);
    }
  }

  // ---------------------------------------------------------------------------
  // User
  // ---------------------------------------------------------------------------

  datatype UserRow = UserRow(id: ObjectID, email: string, passwordHash: string, firstName: string,
                             lastName: string, role: string, active: bool, createdAt: Time, updatedAt: Time)

  class User {
    var id: ObjectID
    var email: string
    var passwordHash: string
    var firstName: string
    var lastName: string
    var role: string
    var active: bool
    var createdAt: Time
    var updatedAt: Time

    /** A `&domain.User{...}` literal. */
    constructor (id: ObjectID, email: string, passwordHash: string, firstName: string, lastName: string,
                 role: string, active: bool, createdAt: Time, updatedAt: Time)
      ensures Row() == UserRow(id, email, passwordHash, firstName, lastName, role, active, createdAt, updatedAt)
    {
      this.id := id;
      this.email := email;
      this.passwordHash := passwordHash;
      this.firstName := firstName;
      this.lastName := lastName;
      this.role := role;
      this.active := active;
      this.createdAt := createdAt;
      this.updatedAt := updatedAt;
    }

    function Row(): UserRow
      reads this
    {
      UserRow(id, email, passwordHash, firstName, lastName, role, active, createdAt, updatedAt)
    }

    /** Whether `password` matches the stored hash; a query that changes nothing. */
    function CheckPassword(h: Hasher, password: string): bool
      reads this
    {
      h.matches(passwordHash, password)
    }

    /** Hashes `password` and stores the hash; the only field it may write is PasswordHash.
        On a hashing error the hash is left as it was. */
    method SetPassword(h: Hasher, salt: nat, password: string) returns (err: Option<Error>)
      modifies this`passwordHash
      ensures h.generate(password, salt).None? ==> err == Some(HashFailure) && passwordHash == old(passwordHash)
      ensures h.generate(password, salt).Some? ==> err == None && passwordHash == h.generate(password, salt).value
      ensures ValidHasher(h) && |password| <= BcryptKeyBytes ==>
        err == None && CheckPassword(h, password) && AcceptsExactly(h, passwordHash, password)
    {
      var hash := h.generate(password, salt);
      if hash.None? {
        return Some(HashFailure);
      }
      passwordHash := hash.value;
      return None;
    }
  }

  datatype UserResponse = UserResponse(id: string, email: string, firstName: string, lastName: string,
                                       role: string, active: bool, createdAt: Time, updatedAt: Time)

  /** User.ToResponse: the id in hex and every field except the password hash. */
  function UserToResponse(u: UserRow): (r: UserResponse)
    ensures ObjectIDFromHex(r.id) == Some(u.id)
    ensures r.email == u.email && r.firstName == u.firstName && r.lastName == u.lastName
    ensures r.role == u.role && r.active == u.active
    ensures r.createdAt == u.createdAt && r.updatedAt == u.updatedAt
  {
    FromHexOfHex(u.id);
    UserResponse(Hex(u.id), u.email, u.firstName, u.lastName, u.role, u.active, u.createdAt, u.updatedAt)
  }

  /** The response never exposes the hash: two users that differ only in their password hash
      have the same response, and users whose responses agree differ at most in the hash. */
  lemma UserResponseOmitsHash(a: UserRow, b: UserRow)
    ensures UserToResponse(a) == UserToResponse(b) <==> a.(passwordHash := b.passwordHash) == b
  {
    if UserToResponse(a) == UserToResponse(b) {
      HexInjective(a.id, b.id);
    }
  }

  // ---------------------------------------------------------------------------
  // Requests and responses
  // ---------------------------------------------------------------------------

  datatype RegisterRequest = RegisterRequest(email: string, password: string, firstName: string, lastName: string)

  datatype LoginRequest = LoginRequest(email: string, password: string)

  datatype AuthResponse = AuthResponse(accessToken: string, refreshToken: string, tokenType: string,
                                       expiresIn: int, user: UserResponse)

  datatype RefreshTokenRequest = RefreshTokenRequest(refreshToken: string)

  datatype CreateUserRequest = CreateUserRequest(email: string, password: string, firstName: string,
                                                 lastName: string, role: string)

  /** `active` is the `*bool` field: None when the body leaves it out. */
  datatype UpdateUserRequest = UpdateUserRequest(email: string, firstName: string, lastName: string,
                                                 role: string, active: Option<bool>)

  datatype ChangePasswordRequest = ChangePasswordRequest(currentPassword: string, newPassword: string)
}
