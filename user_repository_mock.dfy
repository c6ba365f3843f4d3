/** The in-memory user table (internal/repository/mocks/user_repository_mock.go). */
module UserRepositoryMock {
  import opened Primitive
  import opened Errors
  import opened Pagination
  import opened Tables
  import opened Users

  /** The account fields a repository write leaves alone: everything but the id and the
      timestamps. */
  predicate SameAccount(u: User, before: UserRow)
    reads u
  {
    u.email == before.email && u.passwordHash == before.passwordHash && u.firstName == before.firstName &&
    u.lastName == before.lastName && u.role == before.role && u.active == before.active
  }

  predicate Unique(m: map<string, string>) {
    forall k1, k2 :: k1 in m && k2 in m && m[k1] == m[k2] ==> k1 == k2
  }

  predicate UniqueExcept(m: map<string, string>, key: string) {
    forall k1, k2 :: k1 in m && k2 in m && k1 != key && k2 != key && m[k1] == m[k2] ==> k1 == k2
  }

  /** Storing an email no other key holds keeps the emails unique. */
  lemma UniqueInsert(m: map<string, string>, key: string, e: string)
    requires UniqueExcept(m, key)
    requires forall k :: k in m && k != key ==> m[k] != e
    ensures Unique(m[key := e])
  {
  }

  lemma UniqueRemove(m: map<string, string>, key: string)
    requires Unique(m)
    ensures Unique(m - {key})
  {
  }

  class MockUserRepository {
    var users: map<string, User>

    /** Every record is stored under the hex form of its own id, which is never the zero id. */
    ghost predicate Valid()
      reads this, users.Values`id
    {
      forall k :: k in users ==> Hex(users[k].id) == k && !IsZero(users[k].id)
    }

    /** Each key's email. */
    ghost function Emails(): map<string, string>
      reads this, users.Values`email
    {
      map k | k in users :: users[k].email
    }

    /** No two stored users share an email. */
    ghost predicate UniqueEmails()
      reads this, users.Values`email
    {
      Unique(Emails())
    }

    /** No two stored users other than the one under `id` share an email. */
    ghost predicate UniqueEmailsExcept(id: string)
      reads this, users.Values`email
    {
      UniqueExcept(Emails(), id)
    }

    ghost predicate EmailTaken(email: string)
      reads this, users.Values`email
    {
      exists k :: k in users && users[k].email == email
    }

    /** Some user stored under a key other than `id` has exactly this email. */
    ghost predicate EmailTakenByOther(email: string, id: string)
      reads this, users.Values`email
    {
      exists k :: k in users && k != id && users[k].email == email
    }

    ghost function Rows(): map<string, UserRow>
      reads this, users.Values
    {
      map k | k in users :: users[k].Row()
    }

    constructor ()
      ensures users == map[] && Valid() && UniqueEmails()
    {
      users := map[];
    }

    /** Refuses an email some stored user already has, exactly as written (no lower-casing);
        otherwise fills a zero id from `freshId`, stamps both timestamps and stores. */
    method Create(user: User, freshId: ObjectID, now: int) returns (err: Option<Error>)
      requires Valid() && !IsZero(freshId)
      modifies this, user
      ensures Valid()
      ensures old(EmailTaken(user.email)) ==>
        err == Some(EmailAlreadyExists) && users == old(users) && unchanged(user)
      ensures !old(EmailTaken(user.email)) ==>
        err == None &&
        user.id == (if old(IsZero(user.id)) then freshId else old(user.id)) &&
        user.createdAt == At(now) && user.updatedAt == At(now) && SameAccount(user, old(user.Row())) &&
        users == old(users)[Hex(user.id) := user]
      ensures old(UniqueEmails()) ==> UniqueEmails()
    {
      var taken := ExistsByEmail(user.email);
      if taken {
        return Some(EmailAlreadyExists);
      }
      Insert(user, freshId, now);
      return None;
    }

    /** The part of Create after the duplicate scan: stamp the record, then store it. */
    method Insert(user: User, freshId: ObjectID, now: int)
      requires Valid() && !IsZero(freshId) && !EmailTaken(user.email)
      modifies this, user
      ensures Valid()
      ensures user.id == (if old(IsZero(user.id)) then freshId else old(user.id))
      ensures user.createdAt == At(now) && user.updatedAt == At(now) && SameAccount(user, old(user.Row()))
      ensures users == old(users)[Hex(user.id) := user]
      ensures old(UniqueEmails()) ==> UniqueEmails()
    {
      ghost var unique := UniqueEmails();
      ghost var before := user.Row();
      Stamp(user, freshId, now);
      assert users == old(users) && SameAccount(user, before);
      assert UniqueEmails() == unique && !EmailTaken(user.email);
      Store(user);
    }

    /** Fills a zero id and stamps both timestamps of a record that is not stored. */
    method Stamp(user: User, freshId: ObjectID, now: int)
      requires Valid() && !EmailTaken(user.email)
      modifies user`id, user`createdAt, user`updatedAt
      ensures Valid() && user !in users.Values
      ensures user.id == (if old(IsZero(user.id)) then freshId else old(user.id))
      ensures user.createdAt == At(now) && user.updatedAt == At(now)
    {
      assert user !in users.Values;
      if IsZero(user.id) {
        user.id := freshId;
      }
      user.createdAt := At(now);
      user.updatedAt := At(now);
    }

    /** Stores a record that is not stored yet under its own hex id. */
    method Store(user: User)
      requires Valid() && !IsZero(user.id) && !EmailTaken(user.email)
      modifies this
      ensures Valid()
      ensures users == old(users)[Hex(user.id) := user]
      ensures old(UniqueEmails()) ==> UniqueEmails()
    {
      ghost var emails := Emails();
      assert forall k :: k in users ==> users[k] != user;
      users := users[Hex(user.id) := user];
      assert Emails() == emails[Hex(user.id) := user.email];
      if Unique(emails) {
        UniqueInsert(emails, Hex(user.id), user.email);
      }
    }

    method GetByID(id: string) returns (r: Result<User>)
      ensures id in users ==> r == Ok(users[id])
      ensures id !in users ==> r == Err(UserNotFound)
    {
      if id in users {
        return Ok(users[id]);
      }
      return Err(UserNotFound);
    }

    /** The first user met in map order whose email is exactly `email`: under UniqueEmails the
        only one; ErrUserNotFound if there is none. */
    method GetByEmail(email: string) returns (r: Result<User>)
      ensures r.Ok? ==> (exists k :: k in users && users[k] == r.value) && r.value.email == email
      ensures r.Err? ==> r.error == UserNotFound && !EmailTaken(email)
    {
      var remaining := users.Keys;
      while remaining != {}
        invariant remaining <= users.Keys
        invariant forall k :: k in users && k !in remaining ==> users[k].email != email
        decreases |remaining|
      {
        var k :| k in remaining;
        if users[k].email == email {
          return Ok(users[k]);
        }
        remaining := remaining - {k};
      }
      return Err(UserNotFound);
    }

    /** Replaces the entry under the record's hex id and stamps UpdatedAt. An absent id is
        ErrUserNotFound; an email held by a user under another id is ErrEmailAlreadyExists;
        neither touches anything. Because the record may be the stored object, already
        edited in place by the caller, uniqueness is restored from uniqueness among the
        other users. */
    method Update(user: User, now: int) returns (err: Option<Error>)
      requires Valid()
      modifies this, user
      ensures Valid()
      ensures old(Hex(user.id)) !in old(users) ==>
        err == Some(UserNotFound) && users == old(users) && unchanged(user)
      ensures old(Hex(user.id)) in old(users) &&
              old(EmailTakenByOther(user.email, Hex(user.id))) ==>
        err == Some(EmailAlreadyExists) && users == old(users) && unchanged(user)
      ensures old(Hex(user.id)) in old(users) &&
              !old(EmailTakenByOther(user.email, Hex(user.id))) ==>
        err == None && user.updatedAt == At(now) && user.id == old(user.id) &&
        user.createdAt == old(user.createdAt) && SameAccount(user, old(user.Row())) &&
        users == old(users)[Hex(user.id) := user]
      ensures err == None && old(UniqueEmailsExcept(Hex(user.id))) ==> UniqueEmails()
    {
      var id := Hex(user.id);
      if id !in users {
        return Some(UserNotFound);
      }
      var taken := ScanOtherEmails(user.email, id);
      if taken {
        return Some(EmailAlreadyExists);
      }
      HexInjective(users[id].id, user.id);
      Touch(user, now);
      Put(user);
      return None;
    }

    /** Stamps UpdatedAt, the only field Update writes on the record. */
    method Touch(user: User, now: int)
      modifies user`updatedAt
      ensures user.updatedAt == At(now)
    {
      user.updatedAt := At(now);
    }

    /** Stores a record under its own hex id, an existing key, when no user under another
        id has its email. */
    method Put(user: User)
      requires Valid() && Hex(user.id) in users && Hex(users[Hex(user.id)].id) == Hex(user.id)
      requires forall k :: k in users && k != Hex(user.id) ==> users[k].email != user.email
      modifies this
      ensures Valid()
      ensures users == old(users)[Hex(user.id) := user]
      ensures old(UniqueEmailsExcept(Hex(user.id))) ==> UniqueEmails()
    {
      var id := Hex(user.id);
      HexInjective(users[id].id, user.id);
      ghost var emails := Emails();
      users := users[id := user];
      assert Emails() == emails[id := user.email];
      if UniqueExcept(emails, id) {
        UniqueInsert(emails, id, user.email);
      }
    }

    /** The duplicate scan inside Update: whether a user stored under another id has `email`. */
    method ScanOtherEmails(email: string, id: string) returns (b: bool)
      requires Valid()
      ensures b <==> EmailTakenByOther(email, id)
    {
      var remaining := users.Keys;
      while remaining != {}
        invariant remaining <= users.Keys
        invariant forall k :: k in users && k !in remaining ==> !(users[k].email == email && Hex(users[k].id) != id)
        decreases |remaining|
      {
        var k :| k in remaining;
        if users[k].email == email && Hex(users[k].id) != id {
          return true;
        }
        remaining := remaining - {k};
      }
      return false;
    }

    /** Removes the key `id` and no other; an absent id is ErrUserNotFound. */
    method Delete(id: string) returns (err: Option<Error>)
      requires Valid()
      modifies this
      ensures Valid()
      ensures id !in old(users) ==> err == Some(UserNotFound) && users == old(users)
      ensures id in old(users) ==> err == None && users == old(users) - {id}
      ensures old(UniqueEmails()) ==> UniqueEmails()
    {
      if id !in users {
        return Some(UserNotFound);
      }
      ghost var emails := Emails();
      users := users - {id};
      assert Emails() == emails - {id};
      if Unique(emails) {
        UniqueRemove(emails, id);
      }
      return None;
    }

    /** The `for _, u := range m.users` loop: every record copied out once, in map order. */
    method CopyAll() returns (all: seq<UserRow>, ghost keys: seq<string>)
      ensures Enumerates(keys, Rows())
      ensures all == Project(keys, Rows())
    {
      var remaining := users.Keys;
      all := [];
      keys := [];
      while remaining != {}
        invariant remaining <= users.Keys
        invariant |keys| == |all| && Distinct(keys)
        invariant forall i :: 0 <= i < |keys| ==>
          keys[i] in users && keys[i] !in remaining && all[i] == users[keys[i]].Row()
        invariant forall k :: k in users ==> k in remaining || k in keys
        decreases |remaining|
      {
        var k :| k in remaining;
        all := all + [users[k].Row()];
        keys := keys + [k];
        remaining := remaining - {k};
      }
    }

    /** Every user copied out, then the requested page. Page and limit must be positive: on a
        negative offset Go's slice expression panics, and a zero limit divides by zero. */
    method List(params: PaginationParams) returns (r: PaginatedResult<UserRow>, ghost keys: seq<string>)
      requires params.page >= 1 && params.limit >= 1
      ensures Enumerates(keys, Rows())
      ensures r == NewPaginatedResult(PageOf(Project(keys, Rows()), params), |users|, params)
      ensures |r.data| == Min(params.limit, Max(0, |users| - Offset(params)))
    {
      var all;
      all, keys := CopyAll();
      EnumeratesLength(keys, Rows());
      assert Rows().Keys == users.Keys;
      assert |Rows()| == |Rows().Keys| == |users.Keys| == |users|;
      r := NewPaginatedResult(PageOf(all, params), |all|, params);
    }

    /** Whether some stored user has exactly this email. */
    method ExistsByEmail(email: string) returns (b: bool)
      ensures b <==> EmailTaken(email)
    {
      var remaining := users.Keys;
      while remaining != {}
        invariant remaining <= users.Keys
        invariant forall k :: k in users && k !in remaining ==> users[k].email != email
        decreases |remaining|
      {
        var k :| k in remaining;
        if users[k].email == email {
          return true;
        }
        remaining := remaining - {k};
      }
      return false;
    }

    /** Test setup: stores the user as given, filling in only a zero id. There is no email
        check, so this is the one way to break UniqueEmails. */
    method AddUser(user: User, freshId: ObjectID)
      requires Valid() && !IsZero(freshId)
      modifies this, user
      ensures Valid()
      ensures user.id == if old(IsZero(user.id)) then freshId else old(user.id)
      ensures user.createdAt == old(user.createdAt) && user.updatedAt == old(user.updatedAt)
      ensures SameAccount(user, old(user.Row()))
      ensures users == old(users)[Hex(user.id) := user]
    {
      if IsZero(user.id) {
        user.id := freshId;
      }
      users := users[Hex(user.id) := user];
      forall k | k in old(users) && k != Hex(user.id)
        ensures old(users)[k] != user
      {
      }
    }

    method Reset()
      modifies this
      ensures users == map[] && Valid() && UniqueEmails()
    {
      users := map[];
    }

    /** Test assertion helper: the stored objects themselves, one per key, in map order. */
    method GetAllUsers() returns (r: seq<User>, ghost keys: seq<string>)
      ensures Enumerates(keys, users)
      ensures r == Project(keys, users)
    {
      var remaining := users.Keys;
      r := [];
      keys := [];
      while remaining != {}
        invariant remaining <= users.Keys
        invariant |keys| == |r| && Distinct(keys)
        invariant forall i :: 0 <= i < |keys| ==> keys[i] in users && keys[i] !in remaining && r[i] == users[keys[i]]
        invariant forall k :: k in users ==> k in remaining || k in keys
        decreases |remaining|
      {
        var k :| k in remaining;
        r := r + [users[k]];
        keys := keys + [k];
        remaining := remaining - {k};
      }
    }
  }
}
