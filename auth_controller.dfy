/**
 * Email and password accounts (controllers/authController.js): the
 * `register` and `login` guard chains and the profile update. Token signing
 * is a function parameter.
 */
module AuthController {
  import opened Wrappers
  import opened Db
  import Js
  import Utf8
  import UserModel

  const MinPasswordLength := 6
  const SignupCredits := 50

  /** A request field is truthy when present and not empty. */
  predicate Given(field: Option<string>) {
    field.Some? && field.value != ""
  }

  datatype AuthReply =
    | BadRequest(message: string)   // 400
    | Unauthorized(message: string) // 401
    | Deactivated                   // 403 'Account is deactivated'
    | ServerError(message: string)  // 500
    | SignedIn(status: int, token: string, user: UserModel.UserJson)

  /**
   * `register`: name, email and password are required, the password needs
   * at least 6 characters and the email must be new; the account starts with
   * 50 credits on the free plan. An insert the table refuses (a name or
   * email too long for its column, or an email that is new only until its
   * trailing spaces are cut) answers 500.
   */
  method Register(users: UserModel.UserTable, name: Option<string>, email: Option<string>,
                  password: Option<string>, sign: nat -> string) returns (reply: AuthReply)
    requires users.Valid()
    modifies users
    ensures users.Valid()
    ensures !Given(name) || !Given(email) || !Given(password) ==>
              reply == BadRequest("Please provide name, email, and password")
    ensures Given(name) && Given(email) && Given(password) && Js.Utf16Length(password.value) < MinPasswordLength ==>
              reply == BadRequest("Password must be at least 6 characters")
    ensures Given(name) && Given(email) && Given(password) && Js.Utf16Length(password.value) >= MinPasswordLength
            && UserModel.FindByEmail(old(users.rows), email.value).Some? ==>
              reply == BadRequest("Email already registered")
    ensures !reply.SignedIn? ==> users.rows == old(users.rows)
    ensures reply.SignedIn? <==>
              && Given(name) && Given(email) && Given(password) && Js.Utf16Length(password.value) >= MinPasswordLength
              && UserModel.FindByEmail(old(users.rows), email.value).None?
              && UserModel.Storable(name.value, email.value, None, Some(SignupCredits))
              && !UserModel.Collides(old(users.rows), UserModel.Kept(email.value), None)
    ensures Given(name) && Given(email) && Given(password) && Js.Utf16Length(password.value) >= MinPasswordLength
            && UserModel.FindByEmail(old(users.rows), email.value).None? && !reply.SignedIn? ==>
              reply == ServerError("Registration failed")
    ensures reply.SignedIn? ==>
              var u := UserModel.NewUser(old(users.nextId), name.value, email.value, password, None,
                                         Some(SignupCredits), Some(UserModel.Free));
              && users.rows == old(users.rows) + [u]
              && reply == SignedIn(201, sign(u.id), UserModel.ToJson(u))
  {
    if !Given(name) || !Given(email) || !Given(password) {
      return BadRequest("Please provide name, email, and password");
    }
    if Js.Utf16Length(password.value) < MinPasswordLength {
      return BadRequest("Password must be at least 6 characters");
    }
    if UserModel.FindByEmail(users.rows, email.value).Some? {
      return BadRequest("Email already registered");
    }
    var created := users.Create(name.value, email.value, password, None, Some(SignupCredits), Some(UserModel.Free));
    match created
    case Err(_) =>
      reply := ServerError("Registration failed");
    case Ok(id) =>
      var u := users.rows[|users.rows| - 1];
      reply := SignedIn(201, sign(id), UserModel.ToJson(u));
  }

  /**
   * `login`: an unknown email and a wrong password get the same 401; a
   * deactivated account is reported only after its password matched; an
   * account without a password (made through Google) makes the comparison
   * throw, which answers 500.
   */
  function Login(users: seq<UserModel.User>, email: Option<string>, password: Option<string>,
                 sign: nat -> string): (reply: AuthReply)
    ensures !Given(email) || !Given(password) ==> reply == BadRequest("Please provide email and password")
    ensures Given(email) && Given(password) && UserModel.FindByEmail(users, email.value).None? ==>
              reply == Unauthorized("Invalid email or password")
    ensures reply.Unauthorized? ==> reply.message == "Invalid email or password"
    ensures reply.SignedIn? <==>
              Given(email) && Given(password) && UserModel.FindByEmail(users, email.value).Some?
              && var u := users[UserModel.FindByEmail(users, email.value).value];
                 u.password == Some(UserModel.Bcrypt(password.value)) && u.isActive
    ensures reply == Deactivated <==>
              Given(email) && Given(password) && UserModel.FindByEmail(users, email.value).Some?
              && var u := users[UserModel.FindByEmail(users, email.value).value];
                 u.password == Some(UserModel.Bcrypt(password.value)) && !u.isActive
    ensures reply.ServerError? <==>
              Given(email) && Given(password) && UserModel.FindByEmail(users, email.value).Some?
              && users[UserModel.FindByEmail(users, email.value).value].password.None?
    ensures reply.ServerError? ==> reply == ServerError("Login failed")
    ensures reply.SignedIn? ==>
              var u := users[UserModel.FindByEmail(users, email.value).value];
              reply == SignedIn(200, sign(u.id), UserModel.ToJson(u))
  {
    if !Given(email) || !Given(password) then BadRequest("Please provide email and password")
    else match UserModel.FindByEmail(users, email.value)
      case None => Unauthorized("Invalid email or password")
      case Some(i) =>
        var u := users[i];
        match UserModel.ComparePassword(u, password.value)
        case Err(_) => ServerError("Login failed")
        case Ok(false) => Unauthorized("Invalid email or password")
        case Ok(true) =>
          if !u.isActive then Deactivated
          else SignedIn(200, sign(u.id), UserModel.ToJson(u))
  }

  /** An unknown email and a wrong password cannot be told apart by the reply. */
  lemma LoginHidesWhichCheckFailed(users: seq<UserModel.User>, email1: string, email2: string,
                                   password: string, sign: nat -> string)
    requires email1 != "" && email2 != "" && password != ""
    requires UserModel.FindByEmail(users, email1).None?
    requires UserModel.FindByEmail(users, email2).Some?
    requires users[UserModel.FindByEmail(users, email2).value].password.Some?
    requires users[UserModel.FindByEmail(users, email2).value].password != Some(UserModel.Bcrypt(password))
    ensures Login(users, Some(email1), Some(password), sign) == Login(users, Some(email2), Some(password), sign)
  {
  }

  /** bcrypt reads only the first 72 bytes of a password: once those match,
      whatever follows them signs in just the same. */
  lemma LoginReadsFirst72Bytes(users: seq<UserModel.User>, email: string, password: string, tail: string,
                               sign: nat -> string)
    requires |Utf8.Encode(password)| >= UserModel.BcryptKeyLength
    ensures Login(users, Some(email), Some(password + tail), sign) == Login(users, Some(email), Some(password), sign)
  {
    UserModel.BcryptIgnoresTail(password, tail);
    assert password != "";
    assert (password + tail)[0] == password[0];
  }

  /**
   * `updateProfile`: the caller's name changes only when a name is given,
   * and nothing else does; a name the column cannot hold makes the save
   * fail, which answers 500 'Failed to update profile'.
   */
  method UpdateProfile(users: UserModel.UserTable, i: nat, name: Option<string>)
    returns (reply: Result<UserModel.UserJson, string>)
    requires users.Valid() && i < |users.rows|
    modifies users
    ensures users.Valid()
    ensures reply.Err? <==> Given(name) && Varchar(name.value, UserModel.MaxStringLength).None?
    ensures reply.Err? ==> reply.error == "Failed to update profile" && users.rows == old(users.rows)
    ensures reply.Ok? && Given(name) ==>
              users.rows == old(users.rows)[i := old(users.rows)[i].(name := UserModel.Kept(name.value))]
    ensures !Given(name) ==> users.rows == old(users.rows)
    ensures reply.Ok? ==> reply.value == UserModel.ToJson(users.rows[i])
  {
    if Given(name) {
      var ok := users.SetName(i, name.value);
      if !ok {
        return Err("Failed to update profile");
      }
    }
    reply := Ok(UserModel.ToJson(users.rows[i]));
  }
}
