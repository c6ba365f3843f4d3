/** Account management by an administrator (internal/service/user_service.go), run against
    the in-memory user table. bcrypt is the abstract `Hasher`, its random salt a parameter. */
module UserRules {
  import opened Primitive
  import opened Errors
  import opened Strings
  import opened Pagination
  import opened Tables
  import opened Users
  import opened UserRepositoryMock

  const MaxEmailLength: int := 255
  const MinPasswordLength: int := 8
  const MaxPasswordLength: int := 72
  const MaxPersonNameLength: int := 100

  // ---------------------------------------------------------------------------
  // The ordered checks, as reference definitions
  // ---------------------------------------------------------------------------

  /** Email: empty, longer than 255 bytes, not matching the address pattern. */
  function EmailChecks(email: string): seq<Check> {
    [Check(email == "", EmailRequired), Check(|email| > MaxEmailLength, EmailTooLong),
     Check(!IsEmail(email), EmailInvalid)]
  }

  /** Password: empty, shorter than 8 bytes, longer than 72 bytes. */
  function PasswordChecks(password: string): seq<Check> {
    [Check(password == "", PasswordRequired), Check(|password| < MinPasswordLength, PasswordTooShort),
     Check(|password| > MaxPasswordLength, PasswordTooLong)]
  }

  /** Names: a first name that is blank once trimmed, a first name or a last name longer than
      100 bytes (the untrimmed length). */
  function NameChecks(firstName: string, lastName: string): seq<Check> {
    [Check(TrimSpace(firstName) == "", FirstNameRequired),
     Check(|firstName| > MaxPersonNameLength, FirstNameTooLong),
     Check(|lastName| > MaxPersonNameLength, LastNameTooLong)]
  }

  /** The role validateCreateRequest checks: it fills in "user" for an empty role, but on
      its own by-value copy of the request, so only the check sees the default. */
  function DefaultedRole(role: string): (r: string)
    ensures r == "" <==> false
    ensures role != "" ==> r == role
  {
    if role == "" then RoleUser else role
  }

  function CreateChecks(req: CreateUserRequest): seq<Check> {
    EmailChecks(req.email) + PasswordChecks(req.password) + NameChecks(req.firstName, req.lastName) +
    [Check(!IsValidRole(DefaultedRole(req.role)), InvalidRole)]
  }

  function UpdateChecks(req: UpdateUserRequest): seq<Check> {
    EmailChecks(req.email) + NameChecks(req.firstName, req.lastName) + [Check(!IsValidRole(req.role), InvalidRole)]
  }

  // ---------------------------------------------------------------------------
  // The validators
  // ---------------------------------------------------------------------------

  /** validateCreateRequest: the registration checks, then the role, where an empty role
      passes. */
  function ValidateCreateRequest(req: CreateUserRequest): Option<Error>
  {
    if req.email == "" then Some(EmailRequired)
    else if |req.email| > MaxEmailLength then Some(EmailTooLong)
    else if !IsEmail(req.email) then Some(EmailInvalid)
    else if req.password == "" then Some(PasswordRequired)
    else if |req.password| < MinPasswordLength then Some(PasswordTooShort)
    else if |req.password| > MaxPasswordLength then Some(PasswordTooLong)
    else if TrimSpace(req.firstName) == "" then Some(FirstNameRequired)
    else if |req.firstName| > MaxPersonNameLength then Some(FirstNameTooLong)
    else if |req.lastName| > MaxPersonNameLength then Some(LastNameTooLong)
    else
      var role := if req.role == "" then RoleUser else req.role;
      if !IsValidRole(role) then Some(InvalidRole) else None
  }

  /** validateUpdateRequest: no password checks, and the role must be "user" or "admin";
      an empty role is invalid here. */
  function ValidateUpdateRequest(req: UpdateUserRequest): Option<Error>
  {
    if req.email == "" then Some(EmailRequired)
    else if |req.email| > MaxEmailLength then Some(EmailTooLong)
    else if !IsEmail(req.email) then Some(EmailInvalid)
    else if TrimSpace(req.firstName) == "" then Some(FirstNameRequired)
    else if |req.firstName| > MaxPersonNameLength then Some(FirstNameTooLong)
    else if |req.lastName| > MaxPersonNameLength then Some(LastNameTooLong)
    else if !IsValidRole(req.role) then Some(InvalidRole)
    else None
  }

  /** The checks of ChangePassword: either password empty, then the new one's length. */
  function ValidateChangePassword(req: ChangePasswordRequest): Option<Error>
  {
    if req.currentPassword == "" then Some(PasswordRequired)
    else if req.newPassword == "" then Some(PasswordRequired)
    else if |req.newPassword| < MinPasswordLength then Some(PasswordTooShort)
    else if |req.newPassword| > MaxPasswordLength then Some(PasswordTooLong)
    else None
  }

  /** validateCreateRequest reports the first failing check of the ordered list. */
  lemma CreateChecksInOrder(req: CreateUserRequest)
    ensures ValidateCreateRequest(req) == FirstFailure(CreateChecks(req))
  {
    var e, p, n := EmailChecks(req.email), PasswordChecks(req.password), NameChecks(req.firstName, req.lastName);
    FirstFailureAppend(e, p);
    FirstFailureAppend(e + p, n);
    var last := [Check(!IsValidRole(DefaultedRole(req.role)), InvalidRole)];
    FirstFailureAppend(e + p + n, last);
    assert last[1..] == [];
    FirstFailureOfThree(e[0], e[1], e[2]);
    FirstFailureOfThree(p[0], p[1], p[2]);
    FirstFailureOfThree(n[0], n[1], n[2]);
  }

  /** validateUpdateRequest reports the first failing check of the ordered list. */
  lemma UpdateChecksInOrder(req: UpdateUserRequest)
    ensures ValidateUpdateRequest(req) == FirstFailure(UpdateChecks(req))
  {
    var e, n := EmailChecks(req.email), NameChecks(req.firstName, req.lastName);
    FirstFailureAppend(e, n);
    var last := [Check(!IsValidRole(req.role), InvalidRole)];
    FirstFailureAppend(e + n, last);
    assert last[1..] == [];
    FirstFailureOfThree(e[0], e[1], e[2]);
    FirstFailureOfThree(n[0], n[1], n[2]);
  }

  /** ChangePassword's checks: the current password's presence, then the new password's
      three checks. */
  lemma ChangePasswordChecksInOrder(req: ChangePasswordRequest)
    ensures ValidateChangePassword(req) ==
            FirstFailure([Check(req.currentPassword == "", PasswordRequired)] + PasswordChecks(req.newPassword))
  {
    var first, p := [Check(req.currentPassword == "", PasswordRequired)], PasswordChecks(req.newPassword);
    FirstFailureAppend(first, p);
    assert first[1..] == [];
    FirstFailureOfThree(p[0], p[1], p[2]);
  }

  /** A request passing the create checks has a password bcrypt accepts and an empty or
      valid role. */
  lemma CreateValidated(req: CreateUserRequest)
    requires ValidateCreateRequest(req) == None
    ensures MinPasswordLength <= |req.password| <= MaxPasswordLength
    ensures req.role == "" || IsValidRole(req.role)
    ensures IsEmail(req.email) && |req.email| <= MaxEmailLength && TrimSpace(req.firstName) != ""
  {
  }

  /** The empty role: accepted on create exactly as "user" would be, rejected on update. */
  lemma EmptyRoleCreateButNotUpdate(email: string, password: string, firstName: string, lastName: string,
                                    active: Option<bool>)
    ensures ValidateCreateRequest(CreateUserRequest(email, password, firstName, lastName, "")) ==
            ValidateCreateRequest(CreateUserRequest(email, password, firstName, lastName, RoleUser))
    ensures ValidateUpdateRequest(UpdateUserRequest(email, firstName, lastName, "", active)) != None
  {
  }

  /** Update never reports a password error. */
  lemma UpdateHasNoPasswordChecks(req: UpdateUserRequest)
    ensures ValidateUpdateRequest(req) !in {Some(PasswordRequired), Some(PasswordTooShort), Some(PasswordTooLong)}
  {
  }

  /** Update's checks are create's without the password, on the same fields. */
  lemma UpdateAsCreateWithoutPassword(req: UpdateUserRequest, password: string)
    requires FirstFailure(PasswordChecks(password)) == None && req.role != ""
    ensures ValidateUpdateRequest(req) ==
            ValidateCreateRequest(CreateUserRequest(req.email, password, req.firstName, req.lastName, req.role))
  {
    var p := PasswordChecks(password);
    FirstFailureOfThree(p[0], p[1], p[2]);
  }

  /** The record Update leaves: the lower-cased email, the trimmed names and the role always
      written, the active flag only when the request gives one. */
  function Edited(row: UserRow, req: UpdateUserRequest): (r: UserRow)
    ensures r.email == ToLower(req.email) && r.firstName == TrimSpace(req.firstName)
    ensures r.lastName == TrimSpace(req.lastName) && r.role == req.role
    ensures req.active.Some? ==> r.active == req.active.value
    ensures req.active.None? ==> r.active == row.active
    ensures r.id == row.id && r.passwordHash == row.passwordHash
    ensures r.createdAt == row.createdAt && r.updatedAt == row.updatedAt
  {
    row.(email := ToLower(req.email), firstName := TrimSpace(req.firstName), lastName := TrimSpace(req.lastName),
         role := req.role, active := if req.active.Some? then req.active.value else row.active)
  }

  /** The `&domain.User{...}` literal followed by SetPassword: an active record with the
      zero id and zero timestamps, or ErrHashFailure. */
  method NewUser(email: string, firstName: string, lastName: string, role: string, password: string,
                 h: Hasher, salt: nat) returns (r: Result<User>)
    ensures h.generate(password, salt).None? ==> r == Err(HashFailure)
    ensures h.generate(password, salt).Some? ==>
      r.Ok? && fresh(r.value) &&
      r.value.Row() == UserRow(NilObjectID, email, h.generate(password, salt).value, firstName, lastName, role,
                               true, ZeroTime, ZeroTime)
  {
    var user := new User(NilObjectID, email, "", firstName, lastName, role, true, ZeroTime, ZeroTime);
    var hashErr := user.SetPassword(h, salt, password);
    if hashErr.Some? {
      return Err(HashFailure);
    }
    return Ok(user);
  }

  /** The part Create and Register share once the email is known to be free: an active
      `&domain.User{...}` with a zero id, SetPassword, then the table's Create, which
      assigns the id and both timestamps. A hashing error stores nothing. */
  method NewAccount(repo: MockUserRepository, email: string, firstName: string, lastName: string, role: string,
                    password: string, h: Hasher, salt: nat, freshId: ObjectID, now: int) returns (r: Result<User>)
    requires repo.Valid() && !IsZero(freshId) && !repo.EmailTaken(email)
    modifies repo
    ensures repo.Valid()
    ensures h.generate(password, salt).None? ==> r == Err(HashFailure) && repo.users == old(repo.users)
    ensures h.generate(password, salt).Some? ==>
      r.Ok? && fresh(r.value) &&
      r.value.Row() == UserRow(freshId, email, h.generate(password, salt).value, firstName, lastName, role, true,
                               At(now), At(now)) &&
      repo.users == old(repo.users)[Hex(freshId) := r.value]
  {
    var built := NewUser(email, firstName, lastName, role, password, h, salt);
    if built.Err? {
      return built;
    }
    var user := built.value;
    ghost var row := user.Row();
    assert repo.Valid() && !repo.EmailTaken(user.email);
    var saveErr := repo.Create(user, freshId, now);
    assert saveErr == None && user.id == freshId && user.Row() == row.(id := freshId, createdAt := At(now), updatedAt := At(now));
    return Ok(user);
  }

  class UserService {
    const repo: MockUserRepository

    /** NewUserService. */
    constructor (repo: MockUserRepository)
      ensures this.repo == repo
    {
      this.repo := repo;
    }

    /** Validates; refuses a lower-cased email already stored before hashing anything; then
        builds an active user with the lower-cased email, the trimmed names and the role
        exactly as requested (an empty role stays empty), hashes the password and stores. */
    method Create(req: CreateUserRequest, h: Hasher, salt: nat, freshId: ObjectID, now: int)
      returns (r: Result<User>)
      requires repo.Valid() && !IsZero(freshId)
      modifies repo
      ensures repo.Valid()
      ensures r.Err? ==> repo.users == old(repo.users)
      ensures ValidateCreateRequest(req).Some? ==> r == Err(ValidateCreateRequest(req).value)
      ensures ValidateCreateRequest(req).None? && old(repo.EmailTaken(ToLower(req.email))) ==>
        r == Err(EmailAlreadyExists)
      ensures ValidateCreateRequest(req).None? && !old(repo.EmailTaken(ToLower(req.email))) &&
              h.generate(req.password, salt).None? ==>
        r == Err(HashFailure)
      ensures ValidateCreateRequest(req).None? && !old(repo.EmailTaken(ToLower(req.email))) &&
              h.generate(req.password, salt).Some? ==>
        r.Ok? && fresh(r.value) &&
        r.value.Row() == UserRow(freshId, ToLower(req.email), h.generate(req.password, salt).value,
                                 TrimSpace(req.firstName), TrimSpace(req.lastName), req.role, true,
                                 At(now), At(now)) &&
        repo.users == old(repo.users)[Hex(freshId) := r.value]
      ensures ValidHasher(h) && ValidateCreateRequest(req).None? && !old(repo.EmailTaken(ToLower(req.email))) ==>
        r.Ok? && r.value.CheckPassword(h, req.password) && AcceptsExactly(h, r.value.passwordHash, req.password)
    {
      var invalid := ValidateCreateRequest(req);
      match invalid {
        case Some(e) => return Err(e);
        case None =>
      }
      var email := ToLower(req.email);
      var taken := repo.ExistsByEmail(email);
      if taken {
        return Err(EmailAlreadyExists);
      }
      r := NewAccount(repo, email, TrimSpace(req.firstName), TrimSpace(req.lastName), req.role, req.password,
                      h, salt, freshId, now);
    }

    /** Delegates to the table. */
    method GetByID(id: string) returns (r: Result<User>)
      ensures id in repo.users ==> r == Ok(repo.users[id])
      ensures id !in repo.users ==> r == Err(UserNotFound)
    {
      r := repo.GetByID(id);
    }

    /** Validates before the lookup, then edits the stored object in place and saves it.
        The email is checked for existence only when its lower-cased form differs from the
        stored one; an unchanged email that another user also holds (possible only in a
        table that is not unique) fails in the table's own Update, after the edit. */
    method Update(id: string, req: UpdateUserRequest, now: int) returns (r: Result<User>)
      requires repo.Valid()
      modifies repo, if id in repo.users then {repo.users[id]} else {}
      ensures repo.Valid() && repo.users == old(repo.users)
      ensures ValidateUpdateRequest(req).Some? ==> r == Err(ValidateUpdateRequest(req).value)
      ensures ValidateUpdateRequest(req).Some? && id in repo.users ==> unchanged(repo.users[id])
      ensures ValidateUpdateRequest(req).None? && id !in repo.users ==> r == Err(UserNotFound)
      ensures ValidateUpdateRequest(req).None? && id in repo.users ==>
        UpdatedAs(id, req, now, r, old(repo.users[id].Row()), old(repo.EmailTakenByOther(ToLower(req.email), id)))
    {
      var invalid := ValidateUpdateRequest(req);
      match invalid {
        case Some(e) => return Err(e);
        case None =>
      }
      var got := repo.GetByID(id);
      match got {
        case Err(e) => return Err(e);
        case Ok(user) => r := UpdateStored(id, user, req, now);
      }
    }

    /** The outcome of an Update that passed validation on the record stored under `id`,
        whose row was `before`; `other` says whether a user under another id had the new
        email. */
    ghost predicate UpdatedAs(id: string, req: UpdateUserRequest, now: int, r: Result<User>, before: UserRow,
                              other: bool)
      requires id in repo.users
      reads this, repo, repo.users[id]
    {
      var user := repo.users[id];
      (!other ==> r == Ok(user) && user.Row() == Edited(before, req).(updatedAt := At(now))) &&
      (other && ToLower(req.email) != before.email ==> r == Err(EmailAlreadyExists) && user.Row() == before) &&
      (other && ToLower(req.email) == before.email ==> r == Err(EmailAlreadyExists) && user.Row() == Edited(before, req))
    }

    /** Update once the stored object is in hand. */
    method UpdateStored(id: string, user: User, req: UpdateUserRequest, now: int) returns (r: Result<User>)
      requires repo.Valid() && id in repo.users && repo.users[id] == user
      modifies repo, user
      ensures repo.Valid() && repo.users == old(repo.users)
      ensures UpdatedAs(id, req, now, r, old(user.Row()), old(repo.EmailTakenByOther(ToLower(req.email), id)))
    {
      var newEmail := ToLower(req.email);
      if newEmail != user.email {
        var taken := repo.ExistsByEmail(newEmail);
        if taken {
          return Err(EmailAlreadyExists);
        }
      }
      r := SaveEdited(id, user, req, now);
    }

    /** The edit and the save of Update: the fields are written into the stored object
        first, so a save refused for a duplicate email leaves them written. */
    method SaveEdited(id: string, user: User, req: UpdateUserRequest, now: int) returns (r: Result<User>)
      requires repo.Valid() && id in repo.users && repo.users[id] == user
      modifies repo, user
      ensures repo.Valid() && repo.users == old(repo.users)
      ensures !old(repo.EmailTakenByOther(ToLower(req.email), id)) ==>
        r == Ok(user) && user.Row() == Edited(old(user.Row()), req).(updatedAt := At(now))
      ensures old(repo.EmailTakenByOther(ToLower(req.email), id)) ==>
        r == Err(EmailAlreadyExists) && user.Row() == Edited(old(user.Row()), req)
    {
      assert forall k :: k in repo.users && k != id ==> repo.users[k] != user;
      assert Hex(user.id) == id;
      ghost var other := repo.EmailTakenByOther(ToLower(req.email), id);
      ghost var edited := Edited(user.Row(), req);
      EditAccount(user, ToLower(req.email), TrimSpace(req.firstName), TrimSpace(req.lastName), req.role, req.active);
      assert user.Row() == edited;
      assert forall k :: k in repo.users && k != id ==> repo.users[k].email == old(repo.users[k].email);
      assert repo.EmailTakenByOther(user.email, id) == other;
      var saveErr := SaveStored(id, user, now);
      if saveErr.Some? {
        assert other && saveErr == Some(EmailAlreadyExists) && user.Row() == edited;
        return Err(EmailAlreadyExists);
      }
      assert !other && user.Row() == edited.(updatedAt := At(now));
      return Ok(user);
    }

    /** userRepo.Update on the object stored under `id`: UpdatedAt stamped and the entry
        kept, unless a user under another id holds its email, in which case nothing changes. */
    method SaveStored(id: string, user: User, now: int) returns (err: Option<Error>)
      requires repo.Valid() && id in repo.users && repo.users[id] == user
      modifies repo, user
      ensures repo.Valid() && repo.users == old(repo.users)
      ensures old(repo.EmailTakenByOther(user.email, id)) ==> err == Some(EmailAlreadyExists) && unchanged(user)
      ensures !old(repo.EmailTakenByOther(user.email, id)) ==>
        err == None && user.Row() == old(user.Row()).(updatedAt := At(now))
    {
      assert Hex(user.id) == id;
      err := repo.Update(user, now);
    }

    /** The field writes of Update on the stored object, given the lower-cased email and
        the trimmed names. */
    method EditAccount(user: User, email: string, firstName: string, lastName: string, role: string,
                       active: Option<bool>)
      modifies user`email, user`firstName, user`lastName, user`role, user`active
      ensures user.Row() == old(user.Row()).(email := email, firstName := firstName, lastName := lastName,
                                             role := role, active := if active.Some? then active.value
                                                                     else old(user.active))
    {
      user.email := email;
      user.firstName := firstName;
      user.lastName := lastName;
      user.role := role;
      if active.Some? {
        user.active := active.value;
      }
    }

    /** Delegates to the table. */
    method Delete(id: string) returns (err: Option<Error>)
      requires repo.Valid()
      modifies repo
      ensures repo.Valid()
      ensures id !in old(repo.users) ==> err == Some(UserNotFound) && repo.users == old(repo.users)
      ensures id in old(repo.users) ==> err == None && repo.users == old(repo.users) - {id}
    {
      err := repo.Delete(id);
    }

    /** Delegates to the table. */
    method List(params: PaginationParams) returns (r: PaginatedResult<UserRow>, ghost keys: seq<string>)
      requires params.page >= 1 && params.limit >= 1
      ensures Enumerates(keys, repo.Rows())
      ensures r == NewPaginatedResult(PageOf(Project(keys, repo.Rows()), params), |repo.users|, params)
    {
      r, keys := repo.List(params);
    }

    /** Validates both passwords; loads the user; refuses a wrong current password with
        ErrInvalidCredentials and nothing written; otherwise sets the new hash and saves. */
    method ChangePassword(userID: string, req: ChangePasswordRequest, h: Hasher, salt: nat, now: int)
      returns (err: Option<Error>)
      requires repo.Valid()
      modifies repo, if userID in repo.users then {repo.users[userID]} else {}
      ensures repo.Valid() && repo.users == old(repo.users)
      ensures ValidateChangePassword(req).Some? ==> err == ValidateChangePassword(req)
      ensures ValidateChangePassword(req).Some? && userID in repo.users ==> unchanged(repo.users[userID])
      ensures ValidateChangePassword(req).None? && userID !in repo.users ==> err == Some(UserNotFound)
      ensures ValidateChangePassword(req).None? && userID in repo.users ==>
        PasswordChangedAs(userID, req, h, salt, now, err, old(repo.users[userID].Row()),
                          old(repo.EmailTakenByOther(repo.users[userID].email, userID)))
      ensures ValidHasher(h) && err == None ==>
        userID in repo.users && repo.users[userID].CheckPassword(h, req.newPassword) &&
        AcceptsExactly(h, repo.users[userID].passwordHash, req.newPassword) &&
        (KeyStream(req.currentPassword) != KeyStream(req.newPassword) ==>
           !repo.users[userID].CheckPassword(h, req.currentPassword))
    {
      var invalid := ValidateChangePassword(req);
      match invalid {
        case Some(e) => return Some(e);
        case None =>
      }
      var got := repo.GetByID(userID);
      match got {
        case Err(e) => return Some(e);
        case Ok(user) => err := ChangeStoredPassword(userID, user, req, h, salt, now);
      }
    }

    /** The outcome of a ChangePassword that passed validation on the record stored under
        `id`, whose row was `before`; `other` says whether another user had its email. */
    ghost predicate PasswordChangedAs(id: string, req: ChangePasswordRequest, h: Hasher, salt: nat, now: int,
                                      err: Option<Error>, before: UserRow, other: bool)
      requires id in repo.users
      reads this, repo, repo.users[id]
    {
      var user := repo.users[id];
      var hash := h.generate(req.newPassword, salt);
      (!h.matches(before.passwordHash, req.currentPassword) ==>
         err == Some(InvalidCredentials) && user.Row() == before) &&
      (h.matches(before.passwordHash, req.currentPassword) && hash.None? ==>
         err == Some(HashFailure) && user.Row() == before) &&
      (h.matches(before.passwordHash, req.currentPassword) && hash.Some? && other ==>
         err == Some(EmailAlreadyExists) && user.Row() == before.(passwordHash := hash.value)) &&
      (h.matches(before.passwordHash, req.currentPassword) && hash.Some? && !other ==>
         err == None && user.Row() == before.(passwordHash := hash.value, updatedAt := At(now)))
    }

    /** ChangePassword once the stored object is in hand. */
    method ChangeStoredPassword(id: string, user: User, req: ChangePasswordRequest, h: Hasher, salt: nat, now: int)
      returns (err: Option<Error>)
      requires repo.Valid() && id in repo.users && repo.users[id] == user
      modifies repo, user
      ensures repo.Valid() && repo.users == old(repo.users)
      ensures PasswordChangedAs(id, req, h, salt, now, err, old(user.Row()), old(repo.EmailTakenByOther(user.email, id)))
    {
      ghost var before := user.Row();
      ghost var other := repo.EmailTakenByOther(user.email, id);
      if !user.CheckPassword(h, req.currentPassword) {
        return Some(InvalidCredentials);
      }
      var hashErr := user.SetPassword(h, salt, req.newPassword);
      match hashErr {
        case Some(e) => return Some(e);
        case None =>
      }
      assert user.Row() == before.(passwordHash := h.generate(req.newPassword, salt).value);
      assert repo.users == old(repo.users) && repo.EmailTakenByOther(user.email, id) == other;
      err := SaveStored(id, user, now);
    }
  }
}
