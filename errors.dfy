/** The sentinel errors of the domain, user and token packages, with their exact texts,
    and the result type every fallible operation returns. */
module Errors {
  import opened Primitive

  datatype Error =
    // internal/domain/errors.go
    | NotFound
    | DuplicateVersion
    | Validation
    | NameRequired
    | DescriptionRequired
    | VersionRequired
    | NameTooLong
    | DescriptionTooLong
    | InvalidSortField
    | InvalidID
    // internal/domain/user.go
    | EmailRequired
    | EmailInvalid
    | EmailTooLong
    | PasswordRequired
    | PasswordTooShort
    | PasswordTooLong
    | InvalidCredentials
    | EmailAlreadyExists
    | UserNotFound
    | InvalidRole
    | FirstNameRequired
    | FirstNameTooLong
    | LastNameTooLong
    // pkg/jwt/jwt.go
    | InvalidToken
    | ExpiredToken
    | InvalidTokenType
    | InvalidSigningMethod
    // bcrypt.ErrPasswordTooLong, the one error bcrypt hashing reports
    | HashFailure

  /** The text `err.Error()` returns. */
  function Message(e: Error): string {
    match e
    case NotFound => "resource not found"
    case DuplicateVersion => "version already exists for this service"
    case Validation => "validation error"
    case NameRequired => "name is required"
    case DescriptionRequired => "description is required"
    case VersionRequired => "version is required"
    case NameTooLong => "name must be at most 255 characters"
    case DescriptionTooLong => "description must be at most 1000 characters"
    case InvalidSortField => "invalid sort field"
    case InvalidID => "invalid ID format"
    case EmailRequired => "email is required"
    case EmailInvalid => "email format is invalid"
    case EmailTooLong => "email must be at most 255 characters"
    case PasswordRequired => "password is required"
    case PasswordTooShort => "password must be at least 8 characters"
    case PasswordTooLong => "password must be at most 72 characters"
    case InvalidCredentials => "invalid credentials"
    case EmailAlreadyExists => "email already exists"
    case UserNotFound => "user not found"
    case InvalidRole => "invalid role"
    case FirstNameRequired => "first name is required"
    case FirstNameTooLong => "first name must be at most 100 characters"
    case LastNameTooLong => "last name must be at most 100 characters"
    case InvalidToken => "invalid token"
    case ExpiredToken => "token has expired"
    case InvalidTokenType => "invalid token type"
    case InvalidSigningMethod => "invalid signing method"
    case HashFailure => "bcrypt: password length exceeds 72 bytes"
  }

  datatype Result<+T> = Ok(value: T) | Err(error: Error)

  /** One step of an ordered validation: whether it fails, and the error it then reports. */
  datatype Check = Check(fails: bool, error: Error)

  /** The error of the first failing check, or None when every check passes: the meaning of
      a chain of `if ... { return err }` guards. */
  function FirstFailure(checks: seq<Check>): Option<Error> {
    if checks == [] then None
    else if checks[0].fails then Some(checks[0].error)
    else FirstFailure(checks[1..])
  }

  /** FirstFailure reports the error of the lowest-numbered failing check, and None exactly
      when none fails. */
  lemma {:induction false} FirstFailureSpec(checks: seq<Check>)
    ensures FirstFailure(checks) == None <==> forall i :: 0 <= i < |checks| ==> !checks[i].fails
    ensures FirstFailure(checks) != None ==>
      exists i :: 0 <= i < |checks| && checks[i].fails && FirstFailure(checks) == Some(checks[i].error) &&
        forall j :: 0 <= j < i ==> !checks[j].fails
  {
    if checks != [] && !checks[0].fails {
      FirstFailureSpec(checks[1..]);
      if FirstFailure(checks) != None {
        var i :| 0 <= i < |checks[1..]| && checks[1..][i].fails &&
          FirstFailure(checks[1..]) == Some(checks[1..][i].error) &&
          forall j :: 0 <= j < i ==> !checks[1..][j].fails;
        assert checks[i + 1] == checks[1..][i];
        assert forall j :: 0 <= j < i + 1 ==> !checks[j].fails by {
          forall j | 0 <= j < i + 1
            ensures !checks[j].fails
          {
            if j > 0 {
              assert checks[j] == checks[1..][j - 1];
            }
          }
        }
      }
    }
  }

  /** A chain of three checks is three guards in a row. */
  lemma FirstFailureOfThree(a: Check, b: Check, c: Check)
    ensures FirstFailure([a, b, c]) ==
      if a.fails then Some(a.error) else if b.fails then Some(b.error) else if c.fails then Some(c.error) else None
  {
    assert [c][1..] == [];
    assert FirstFailure([c]) == if c.fails then Some(c.error) else None;
    assert [b, c][1..] == [c];
    assert FirstFailure([b, c]) == if b.fails then Some(b.error) else FirstFailure([c]);
    assert [a, b, c][1..] == [b, c];
  }

  /** Running two chains of checks one after the other. */
  lemma {:induction false} FirstFailureAppend(a: seq<Check>, b: seq<Check>)
    ensures FirstFailure(a + b) == if FirstFailure(a).Some? then FirstFailure(a) else FirstFailure(b)
  {
    if a != [] {
      assert (a + b)[1..] == a[1..] + b;
      FirstFailureAppend(a[1..], b);
    } else {
      assert a + b == b;
    }
  }
}
